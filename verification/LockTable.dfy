/**
 The lock list of one record: entries in arrival order, the granted ones in front.
 Requests are granted at once, queued, or refused by the wait-die rule; releasing a lock
 grants the waiters that can now run.
 */
module LockTable {

  type TxnId = int
  type Rid = int

  datatype LockType = EMPTY | SHARED | EXCLUSIVE | DELETE

  // What a blocked request waits for: nothing, a grant that has not come, or a grant
  // that its thread has not noticed yet.
  datatype Promise = NoPromise | Pending | Fulfilled

  datatype TransactionInfo = Info(txn: TxnId, granted: bool, lockType: LockType, promise: Promise)

  datatype LockList = LockList(list: seq<TransactionInfo>, lockType: LockType, grantCnt: int)

  const NEW_LIST := LockList([], EMPTY, 0)

  // ----- What every reachable lock list satisfies -----

  // The granted entries are a prefix: one EXCLUSIVE entry, or SHARED entries only.
  ghost predicate GrantsOk(l: LockList) {
    && 0 <= l.grantCnt <= |l.list|
    && (|l.list| > 0 ==> l.grantCnt > 0 && l.lockType == l.list[0].lockType)
    && (forall i :: 0 <= i < |l.list| ==>
          && (l.list[i].granted <==> i < l.grantCnt)
          && (l.list[i].lockType == SHARED || l.list[i].lockType == EXCLUSIVE)
          && (l.list[i].promise == Pending <==> i >= l.grantCnt))
    && (forall i :: 0 <= i < l.grantCnt ==> l.list[i].lockType == SHARED || l.grantCnt == 1)
  }

  // A transaction is listed once, except that the holder of a SHARED lock may also be
  // the first waiter, for EXCLUSIVE.
  ghost predicate UpgradeOk(l: LockList) {
    forall i, j :: 0 <= i < j < |l.list| && l.list[i].txn == l.list[j].txn ==>
      && i < l.grantCnt == j
      && l.list[i].lockType == SHARED && l.list[j].lockType == EXCLUSIVE
      && l.list[i].promise == NoPromise
  }

  // The id of a waiter is at most that of everyone ahead of it.
  ghost predicate WaitDie(l: LockList) {
    forall i, j :: 0 <= i < j < |l.list| && l.grantCnt <= j ==> l.list[j].txn <= l.list[i].txn
  }

  predicate Conflicts(a: TransactionInfo, b: TransactionInfo) {
    a.txn != b.txn && (a.lockType == EXCLUSIVE || b.lockType == EXCLUSIVE)
  }

  // The first waiter has a reason to wait: some holder other than itself.
  ghost predicate FirstWaiterBlocked(l: LockList) {
    0 <= l.grantCnt < |l.list| ==> exists i :: 0 <= i < l.grantCnt && Conflicts(l.list[i], l.list[l.grantCnt])
  }

  ghost predicate ListOk(l: LockList) {
    GrantsOk(l) && UpgradeOk(l) && WaitDie(l) && FirstWaiterBlocked(l)
  }

  // ----- Requests -----

  predicate MayWait(l: LockList, t: TxnId) {
    forall i :: 0 <= i < |l.list| ==> t <= l.list[i].txn
  }

  function Granted(l: LockList, t: TxnId, m: LockType): LockList {
    l.(list := l.list + [Info(t, true, m, NoPromise)], grantCnt := l.grantCnt + 1)
  }

  function Queued(l: LockList, t: TxnId, m: LockType): LockList {
    l.(list := l.list + [Info(t, false, m, Pending)])
  }

  datatype Answer = Grant | Wait | Die

  // The list after a request, and the answer.
  function Request(l: LockList, t: TxnId, m: LockType): (LockList, Answer) {
    if |l.list| == 0 then (Granted(l.(lockType := m), t, m), Grant)
    else if m == SHARED && l.lockType == SHARED && l.list[|l.list| - 1].granted then (Granted(l, t, m), Grant)
    else if MayWait(l, t) then (Queued(l, t, m), Wait)
    else (l, Die)
  }

  function Upgrade(l: LockList, t: TxnId): (LockList, Answer) {
    if l.lockType == SHARED && l.grantCnt == 1 && |l.list| > 0 then
      (l.(list := l.list[0 := l.list[0].(lockType := EXCLUSIVE)], lockType := EXCLUSIVE), Grant)
    else if MayWait(l, t) then (Queued(l, t, EXCLUSIVE), Wait)
    else (l, Die)
  }

  predicate Listed(l: LockList, t: TxnId) {
    exists i :: 0 <= i < |l.list| && l.list[i].txn == t
  }

  lemma RequestOk(l: LockList, t: TxnId, m: LockType)
    requires ListOk(l) && !Listed(l, t) && (m == SHARED || m == EXCLUSIVE)
    ensures ListOk(Request(l, t, m).0)
  {
    if |l.list| > 0 && Request(l, t, m).1 == Wait {
      RequestWaits(l, t, m);
    }
  }

  // Nobody waits, and no holder keeps `t` from having the lock.
  predicate Free(l: LockList, t: TxnId, m: LockType) {
    forall i :: 0 <= i < |l.list| ==> l.list[i].granted && !Conflicts(l.list[i], Info(t, true, m, NoPromise))
  }

  predicate HasOlder(l: LockList, t: TxnId) {
    exists i :: 0 <= i < |l.list| && l.list[i].txn < t
  }

  /** A request is granted exactly when nobody waits and no holder is in conflict, and else
      dies exactly when somebody on the list is older.  The newcomer then holds the lock, or
      waits for it, or is not on the list; all others stay. */
  lemma RequestAnswer(l: LockList, t: TxnId, m: LockType)
    requires ListOk(l) && !Listed(l, t) && (m == SHARED || m == EXCLUSIVE)
    ensures Request(l, t, m).1 == Grant <==> Free(l, t, m)
    ensures Request(l, t, m).1 == Die <==> !Free(l, t, m) && HasOlder(l, t)
    ensures var (l', a) := Request(l, t, m);
      && (a == Die <==> !Listed(l', t))
      && (a != Die ==> |l'.list| == |l.list| + 1 && l'.list[..|l.list|] == l.list)
      && (a == Grant <==> Holds(l', t))
      && (forall i :: 0 <= i < |l'.list| && l'.list[i].txn == t ==> l'.list[i].lockType == m)
  {
    var (l', a) := Request(l, t, m);
    RequestGranted(l, t, m);
    RequestList(l, t, m);
  }

  lemma RequestList(l: LockList, t: TxnId, m: LockType)
    requires !Listed(l, t)
    ensures var (l', a) := Request(l, t, m);
      && (a == Die <==> !Listed(l', t))
      && (a != Die ==> |l'.list| == |l.list| + 1 && l'.list[..|l.list|] == l.list)
      && (a == Grant <==> Holds(l', t))
      && (forall i :: 0 <= i < |l'.list| && l'.list[i].txn == t ==> l'.list[i].lockType == m)
  {
    var (l', a) := Request(l, t, m);
    if a != Die {
      assert l'.list[|l.list|].txn == t;
      assert forall i :: 0 <= i < |l.list| ==> l'.list[i] == l.list[i];
    }
  }

  lemma RequestGranted(l: LockList, t: TxnId, m: LockType)
    requires ListOk(l) && !Listed(l, t) && (m == SHARED || m == EXCLUSIVE)
    ensures Request(l, t, m).1 == Grant <==> Free(l, t, m)
    ensures Request(l, t, m).1 == Die <==> !Free(l, t, m) && HasOlder(l, t)
  {
    if |l.list| > 0 && l.list[|l.list| - 1].granted {
      assert l.grantCnt == |l.list|;
    }
  }

  lemma RequestWaits(l: LockList, t: TxnId, m: LockType)
    requires ListOk(l) && !Listed(l, t) && (m == SHARED || m == EXCLUSIVE)
    requires |l.list| > 0 && Request(l, t, m).1 == Wait
    ensures ListOk(Request(l, t, m).0)
  {
    QueuedBlocked(l, t, m);
    var l' := Queued(l, t, m);
    assert forall k :: 0 <= k < |l'.list| ==> l'.list[k] == if k < |l.list| then l.list[k] else Info(t, false, m, Pending);
  }

  lemma QueuedBlocked(l: LockList, t: TxnId, m: LockType)
    requires ListOk(l) && !Listed(l, t) && (m == SHARED || m == EXCLUSIVE)
    requires |l.list| > 0 && Request(l, t, m).1 == Wait
    ensures FirstWaiterBlocked(Queued(l, t, m))
  {
    var l' := Queued(l, t, m);
    if l.grantCnt == |l.list| {
      assert Conflicts(l'.list[0], l'.list[l.grantCnt]);
    } else {
      var i :| 0 <= i < l.grantCnt && Conflicts(l.list[i], l.list[l.grantCnt]);
      assert Conflicts(l'.list[i], l'.list[l.grantCnt]);
    }
  }

  predicate HoldsShared(l: LockList, t: TxnId) {
    exists i :: 0 <= i < |l.list| && l.list[i].txn == t && l.list[i].granted && l.list[i].lockType == SHARED
  }

  /** An upgrade is refused whenever somebody waits already, so a waiting upgrade is the
      first waiter. */
  lemma UpgradeNeedsNoWaiter(l: LockList, t: TxnId)
    requires ListOk(l) && HoldsShared(l, t)
    requires forall j :: l.grantCnt <= j < |l.list| ==> l.list[j].txn != t
    ensures Upgrade(l, t).1 == Wait ==> l.grantCnt == |l.list|
  {
    var i :| 0 <= i < |l.list| && l.list[i].txn == t && l.list[i].granted && l.list[i].lockType == SHARED;
    if l.grantCnt < |l.list| {
      assert l.list[l.grantCnt].txn < t;
    }
  }

  predicate OnlyHolder(l: LockList, t: TxnId) {
    forall i :: 0 <= i < |l.list| && l.list[i].granted ==> l.list[i].txn == t
  }

  /** An upgrade is granted exactly when nobody else holds the lock, and else dies exactly
      when somebody on the list is older; until then the transaction keeps what it has. */
  lemma UpgradeAnswer(l: LockList, t: TxnId)
    requires ListOk(l) && HoldsShared(l, t)
    requires forall j :: l.grantCnt <= j < |l.list| ==> l.list[j].txn != t
    ensures Upgrade(l, t).1 == Grant <==> OnlyHolder(l, t)
    ensures Upgrade(l, t).1 == Die <==> !OnlyHolder(l, t) && HasOlder(l, t)
    ensures var (l', a) := Upgrade(l, t);
      && (a == Grant <==> !HoldsShared(l', t))
      && (a == Grant ==> |l'.list| == |l.list| && l'.list[0] == Info(t, true, EXCLUSIVE, l.list[0].promise) && l'.list[1..] == l.list[1..])
      && (a == Wait ==> l'.list == l.list + [Info(t, false, EXCLUSIVE, Pending)])
      && (a == Die ==> l' == l)
  {
    var i :| 0 <= i < |l.list| && l.list[i].txn == t && l.list[i].granted && l.list[i].lockType == SHARED;
    var (l', a) := Upgrade(l, t);
    if l.grantCnt >= 2 {
      var k := if i == 0 then 1 else 0;
      assert l.list[k].txn != t && l.list[k].granted;
    }
    if a == Wait {
      assert l'.list[i] == l.list[i];
    }
  }

  lemma UpgradeKeeps(l: LockList, t: TxnId)
    requires ListOk(l) && HoldsShared(l, t)
    requires forall j :: 0 <= j < |l.list| && l.list[j].txn == t ==> l.list[j].promise == NoPromise
    ensures ListOk(Upgrade(l, t).0)
  {
    UpgradeNeedsNoWaiter(l, t);
    var i :| 0 <= i < |l.list| && l.list[i].txn == t && l.list[i].granted && l.list[i].lockType == SHARED;
    var l' := Upgrade(l, t).0;
    if Upgrade(l, t).1 == Wait {
      assert l.grantCnt >= 2;
      var k := if i == 0 then 1 else 0;
      assert l'.list[k].txn != t;
      assert Conflicts(l'.list[k], l'.list[l.grantCnt]);
    }
    if Upgrade(l, t).1 == Grant && l.grantCnt < |l.list| {
      assert Conflicts(l'.list[0], l'.list[1]);
    }
  }

  // ----- Releasing a lock -----

  predicate Holds(l: LockList, t: TxnId) {
    exists i :: 0 <= i < |l.list| && l.list[i].txn == t && l.list[i].granted
  }

  // The place of the granted entry of `t`, if it has one.
  function HeldAt(list: seq<TransactionInfo>, t: TxnId): (i: int)
    ensures -1 <= i < |list|
    ensures i >= 0 ==> list[i].txn == t && list[i].granted
    ensures forall k :: 0 <= k < (if i < 0 then |list| else i) ==> !(list[k].txn == t && list[k].granted)
  {
    if list == [] then -1
    else if list[0].txn == t && list[0].granted then 0
    else
      var r := HeldAt(list[1..], t);
      assert forall k :: 1 <= k < |list| ==> list[k] == list[1..][k - 1];
      if r < 0 then -1 else r + 1
  }

  // How many entries in front are SHARED.
  function SharedRun(list: seq<TransactionInfo>): (k: nat)
    ensures k <= |list|
    ensures forall i :: 0 <= i < k ==> list[i].lockType == SHARED
    ensures k < |list| ==> list[k].lockType != SHARED
  {
    if list == [] || list[0].lockType != SHARED then 0
    else
      var r := SharedRun(list[1..]);
      assert forall i :: 1 <= i < |list| ==> list[i] == list[1..][i - 1];
      1 + r
  }

  function Wake(e: TransactionInfo): TransactionInfo {
    e.(granted := true, promise := Fulfilled)
  }

  // The first `k` entries granted.
  function WakeFirst(list: seq<TransactionInfo>, k: nat): (r: seq<TransactionInfo>)
    requires k <= |list|
    ensures |r| == |list|
    ensures forall i :: 0 <= i < |r| ==> r[i] == if i < k then Wake(list[i]) else list[i]
  {
    seq(|list|, i requires 0 <= i < |list| => if i < k then Wake(list[i]) else list[i])
  }

  // How many waiters to grant when nobody holds the lock: the first, and the SHARED
  // ones right behind it when it is SHARED.
  function Runners(list: seq<TransactionInfo>): (k: nat)
    requires |list| > 0
    ensures 1 <= k <= |list|
  {
    if list[0].lockType == SHARED then SharedRun(list) else 1
  }

  // Nobody holds the lock any more: grant waiters from the front.
  function Promoted(l: LockList): LockList {
    if |l.list| == 0 then l
    else LockList(WakeFirst(l.list, Runners(l.list)), l.list[0].lockType, Runners(l.list))
  }

  // One SHARED holder is left: if it is the first waiter too, its upgrade is granted.
  function Upgraded(l: LockList): LockList {
    if |l.list| >= 2 && l.list[1].lockType == EXCLUSIVE && l.list[1].txn == l.list[0].txn && l.list[0].lockType == SHARED
    then LockList([Wake(l.list[1])] + l.list[2..], EXCLUSIVE, 1)
    else l
  }

  function Without(list: seq<TransactionInfo>, i: nat): seq<TransactionInfo>
    requires i < |list|
  {
    list[..i] + list[i + 1..]
  }

  // Grants what can be granted after a holder has left.
  function Granting(l1: LockList): LockList {
    if l1.grantCnt == 0 then Promoted(l1) else if l1.grantCnt == 1 then Upgraded(l1) else l1
  }

  function Release(l: LockList, t: TxnId): LockList
    requires HeldAt(l.list, t) >= 0
  {
    Granting(l.(list := Without(l.list, HeldAt(l.list, t)), grantCnt := l.grantCnt - 1))
  }

  lemma WithoutAt(list: seq<TransactionInfo>, i: nat)
    requires i < |list|
    ensures |Without(list, i)| == |list| - 1
    ensures forall k :: 0 <= k < |list| - 1 ==> Without(list, i)[k] == list[if k < i then k else k + 1]
  {
  }

  // Dropping a holder keeps who is ahead of whom.
  lemma DropHolder(l: LockList, l1: LockList, i: nat)
    requires ListOk(l) && i < l.grantCnt
    requires l1.list == Without(l.list, i) && l1.grantCnt == l.grantCnt - 1
    ensures UpgradeOk(l1) && WaitDie(l1)
    ensures forall k :: 0 <= k < |l1.list| ==>
      && (l1.list[k].granted <==> k < l1.grantCnt)
      && (l1.list[k].lockType == SHARED || l1.list[k].lockType == EXCLUSIVE)
      && (l1.list[k].promise == Pending <==> k >= l1.grantCnt)
    ensures l1.grantCnt > 0 ==> forall k :: 0 <= k < l1.grantCnt ==> l1.list[k].lockType == SHARED
  {
    WithoutAt(l.list, i);
    DropUpgrade(l, l1, i);
  }

  lemma DropUpgrade(l: LockList, l1: LockList, i: nat)
    requires UpgradeOk(l) && i < l.grantCnt <= |l.list|
    requires l1.list == Without(l.list, i) && l1.grantCnt == l.grantCnt - 1
    ensures UpgradeOk(l1)
  {
    WithoutAt(l.list, i);
  }

  // Waiters are distinct transactions, and sorted.
  ghost predicate Queue(list: seq<TransactionInfo>) {
    forall i, j :: 0 <= i < j < |list| ==> list[j].txn < list[i].txn
  }

  lemma QueueOk(l: LockList)
    requires UpgradeOk(l) && WaitDie(l) && l.grantCnt == 0
    ensures Queue(l.list)
  {
  }

  // Dropping the only holder and granting the next waiters.
  lemma PromoteKeeps(l1: LockList)
    requires Queue(l1.list) && l1.grantCnt == 0
    requires forall k :: 0 <= k < |l1.list| ==>
      && (l1.list[k].lockType == SHARED || l1.list[k].lockType == EXCLUSIVE)
      && !l1.list[k].granted && l1.list[k].promise == Pending
    ensures ListOk(Promoted(l1))
  {
    if |l1.list| > 0 {
      var k, p := Runners(l1.list), Promoted(l1);
      assert Queue(p.list);
      if k < |p.list| {
        assert p.list[k] == l1.list[k];
        assert Conflicts(p.list[0], p.list[k]);
      }
    }
  }

  // One holder left, whose upgrade may be the first to wait.
  lemma UpgradedKeeps(l1: LockList)
    requires GrantsOk(l1) && UpgradeOk(l1) && WaitDie(l1) && l1.grantCnt == 1 && l1.lockType == SHARED
    requires 1 < |l1.list| ==> l1.list[1].lockType == EXCLUSIVE
    ensures ListOk(Upgraded(l1))
  {
    var p := Upgraded(l1);
    if 1 < |l1.list| && l1.list[1].txn == l1.list[0].txn {
      assert forall k :: 1 <= k < |p.list| ==> p.list[k] == l1.list[k + 1];
      assert p.list[0] == Wake(l1.list[1]);
    }
    if 1 < |p.list| {
      assert Conflicts(p.list[0], p.list[1]);
    }
  }

  // Enough holders left: the first waiter still waits for one of them.
  lemma StillBlocked(l1: LockList)
    requires GrantsOk(l1) && UpgradeOk(l1) && l1.grantCnt >= 2
    requires l1.grantCnt < |l1.list| ==> l1.list[l1.grantCnt].lockType == EXCLUSIVE
    ensures FirstWaiterBlocked(l1)
  {
    if l1.grantCnt < |l1.list| {
      if l1.list[0].txn != l1.list[l1.grantCnt].txn {
        assert Conflicts(l1.list[0], l1.list[l1.grantCnt]);
      } else {
        assert Conflicts(l1.list[1], l1.list[l1.grantCnt]);
      }
    }
  }

  // Behind several holders the first to wait wants the lock for itself.
  lemma FirstWaiterStays(l: LockList, i: nat)
    requires ListOk(l) && l.grantCnt >= 2 && i < l.grantCnt
    ensures var list := Without(l.list, i); l.grantCnt - 1 < |list| ==> list[l.grantCnt - 1].lockType == EXCLUSIVE
  {
    WithoutAt(l.list, i);
    assert l.grantCnt < |l.list| ==> l.list[l.grantCnt].lockType == EXCLUSIVE;
  }

  // A list that a holder has left.
  ghost predicate Dropped(l1: LockList) {
    && 0 <= l1.grantCnt <= |l1.list| && UpgradeOk(l1) && WaitDie(l1)
    && (forall k :: 0 <= k < |l1.list| ==>
          && (l1.list[k].granted <==> k < l1.grantCnt)
          && (l1.list[k].lockType == SHARED || l1.list[k].lockType == EXCLUSIVE)
          && (l1.list[k].promise == Pending <==> k >= l1.grantCnt))
    && (l1.grantCnt > 0 ==>
          && l1.lockType == SHARED && (forall k :: 0 <= k < l1.grantCnt ==> l1.list[k].lockType == SHARED)
          && (l1.grantCnt < |l1.list| ==> l1.list[l1.grantCnt].lockType == EXCLUSIVE))
  }

  lemma DropKeeps(l: LockList, l1: LockList, i: nat)
    requires ListOk(l) && i < l.grantCnt && l1 == l.(list := Without(l.list, i), grantCnt := l.grantCnt - 1)
    ensures Dropped(l1)
  {
    DropHolder(l, l1, i);
    if l.grantCnt >= 2 { FirstWaiterStays(l, i); }
  }

  lemma GrantingKeeps(l1: LockList)
    requires Dropped(l1)
    ensures ListOk(Granting(l1))
  {
    if l1.grantCnt == 0 {
      QueueOk(l1);
      PromoteKeeps(l1);
    } else if l1.grantCnt == 1 {
      UpgradedKeeps(l1);
    } else {
      StillBlocked(l1);
    }
  }

  /** Releasing a lock keeps the list well-formed, and loses no wake-up. */
  lemma ReleaseKeeps(l: LockList, t: TxnId)
    requires ListOk(l) && Holds(l, t)
    ensures HeldAt(l.list, t) >= 0 && ListOk(Release(l, t))
  {
    var i := HeldAt(l.list, t);
    DropKeeps(l, l.(list := Without(l.list, i), grantCnt := l.grantCnt - 1), i);
    GrantingKeeps(l.(list := Without(l.list, i), grantCnt := l.grantCnt - 1));
  }

  // An entry of the list before and the same entry after a release: unchanged, or
  // granted by it.
  predicate Survives(e: TransactionInfo, e': TransactionInfo) {
    e' == e || (e.promise == Pending && e' == Wake(e))
  }

  // The entry comes from the list, and the entry lives on in the list.
  predicate From(list: seq<TransactionInfo>, e': TransactionInfo) {
    exists m :: 0 <= m < |list| && Survives(list[m], e')
  }

  predicate LivesOn(e: TransactionInfo, list': seq<TransactionInfo>) {
    exists m :: 0 <= m < |list'| && Survives(e, list'[m])
  }

  // The entry of a SHARED holder whose upgrade is granted goes with the release.
  predicate Superseded(e: TransactionInfo, list': seq<TransactionInfo>) {
    && e.granted && e.lockType == SHARED && e.promise == NoPromise
    && exists m :: 0 <= m < |list'| && list'[m].txn == e.txn && list'[m].promise == Fulfilled && list'[m].lockType == EXCLUSIVE
  }

  lemma PromotedEntries(l1: LockList)
    requires l1.grantCnt == 0 && forall k :: 0 <= k < |l1.list| ==> l1.list[k].promise == Pending
    ensures |Promoted(l1).list| == |l1.list|
    ensures forall k :: 0 <= k < |l1.list| ==> Survives(l1.list[k], Promoted(l1).list[k])
  {
  }

  lemma UpgradedEntries(l1: LockList)
    requires UpgradeOk(l1) && l1.grantCnt == 1 && Upgraded(l1) != l1
    requires forall k :: 0 <= k < |l1.list| ==>
      (l1.list[k].promise == Pending <==> k >= 1) && (l1.list[k].granted <==> k < 1)
    ensures |Upgraded(l1).list| == |l1.list| - 1
    ensures forall k :: 0 <= k < |l1.list| - 1 ==> Survives(l1.list[k + 1], Upgraded(l1).list[k])
    ensures Superseded(l1.list[0], Upgraded(l1).list)
  {
    var list' := Upgraded(l1).list;
    assert list'[0] == Wake(l1.list[1]);
    assert forall k :: 1 <= k < |list'| ==> list'[k] == l1.list[k + 1];
  }

  lemma GrantingEntries(l1: LockList)
    requires UpgradeOk(l1) && l1.grantCnt >= 0
    requires forall k :: 0 <= k < |l1.list| ==>
      (l1.list[k].promise == Pending <==> k >= l1.grantCnt) && (l1.list[k].granted <==> k < l1.grantCnt)
    ensures var list' := Granting(l1).list;
      && (forall k :: 0 <= k < |list'| ==> From(l1.list, list'[k]))
      && (forall k :: 0 <= k < |l1.list| ==> LivesOn(l1.list[k], list') || Superseded(l1.list[k], list'))
  {
    if l1.grantCnt == 0 {
      PromotedEntries(l1);
    } else if l1.grantCnt == 1 && Upgraded(l1) != l1 {
      UpgradedEntries(l1);
      assert forall k :: 1 <= k < |l1.list| ==> Survives(l1.list[k], Upgraded(l1).list[k - 1]);
    } else {
      assert forall k :: 0 <= k < |l1.list| ==> Survives(l1.list[k], l1.list[k]);
    }
  }

  // `list'` is `list` without entry `i`, with some waiters granted.
  ghost predicate Released(list: seq<TransactionInfo>, i: nat, list': seq<TransactionInfo>) {
    && (forall k :: 0 <= k < |list'| ==> From(list, list'[k]))
    && (forall k :: 0 <= k < |list| && k != i ==> LivesOn(list[k], list') || Superseded(list[k], list'))
  }

  /** Every entry after a release was there before, and every other entry before it is
      there after it, unless the release granted its upgrade. */
  lemma ReleaseEntries(l: LockList, t: TxnId)
    requires ListOk(l) && Holds(l, t)
    ensures HeldAt(l.list, t) >= 0
    ensures Released(l.list, HeldAt(l.list, t), Release(l, t).list)
  {
    var i := HeldAt(l.list, t);
    var l1 := l.(list := Without(l.list, i), grantCnt := l.grantCnt - 1);
    DropHolder(l, l1, i);
    GrantingEntries(l1);
    AroundDropped(l.list, i, Granting(l1).list);
  }

  lemma AroundDropped(list: seq<TransactionInfo>, i: nat, list': seq<TransactionInfo>)
    requires i < |list|
    requires var list1 := Without(list, i);
      && (forall k :: 0 <= k < |list'| ==> From(list1, list'[k]))
      && (forall k :: 0 <= k < |list1| ==> LivesOn(list1[k], list') || Superseded(list1[k], list'))
    ensures forall k :: 0 <= k < |list'| ==> From(list, list'[k])
    ensures forall k :: 0 <= k < |list| && k != i ==> LivesOn(list[k], list') || Superseded(list[k], list')
  {
    var list1 := Without(list, i);
    WithoutAt(list, i);
    forall k | 0 <= k < |list'|
      ensures From(list, list'[k])
    {
      assert From(list1, list'[k]);
      var m :| 0 <= m < |list1| && Survives(list1[m], list'[k]);
      assert Survives(list[if m < i then m else m + 1], list'[k]);
    }
    forall k | 0 <= k < |list| && k != i
      ensures LivesOn(list[k], list') || Superseded(list[k], list')
    {
      assert list1[if k < i then k else k - 1] == list[k];
    }
  }
}
