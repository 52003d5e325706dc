/**
 The lock manager as it runs: its calls change the lock table and the transactions step
 by step, and each one does what the corresponding step of `LockManager` says.
 */
module LockManagerClass {
  import opened LockTable
  import opened LockManager

  // ----- Entries marked for deletion -----

  function Kept(list: seq<TransactionInfo>): seq<TransactionInfo> {
    if list == [] then []
    else (if list[0].lockType == DELETE then [] else [list[0]]) + Kept(list[1..])
  }

  lemma {:induction false} KeptConcat(a: seq<TransactionInfo>, b: seq<TransactionInfo>)
    ensures Kept(a + b) == Kept(a) + Kept(b)
  {
    if a == [] {
      assert a + b == b;
    } else {
      assert (a + b)[1..] == a[1..] + b;
      KeptConcat(a[1..], b);
    }
  }

  lemma {:induction false} KeptAll(list: seq<TransactionInfo>)
    requires forall i :: 0 <= i < |list| ==> list[i].lockType != DELETE
    ensures Kept(list) == list
  {
    if list != [] {
      KeptAll(list[1..]);
    }
  }

  // Sweeping out one marked entry.
  lemma {:induction false} KeptOne(list: seq<TransactionInfo>, i: nat)
    requires i < |list| && list[i].lockType == DELETE
    requires forall k :: 0 <= k < |list| && k != i ==> list[k].lockType != DELETE
    ensures Kept(list) == Without(list, i)
  {
    if i == 0 {
      KeptAll(list[1..]);
    } else {
      KeptOne(list[1..], i - 1);
      assert Without(list, i) == [list[0]] + Without(list[1..], i - 1);
    }
  }

  method RemoveDeleted(list: seq<TransactionInfo>) returns (kept: seq<TransactionInfo>)
    ensures kept == Kept(list)
  {
    kept := [];
    var i := 0;
    while i < |list|
      invariant 0 <= i <= |list|
      invariant kept == Kept(list[..i])
    {
      if list[i].lockType != DELETE {
        kept := kept + [list[i]];
      }
      assert list[..i + 1] == list[..i] + [list[i]];
      KeptConcat(list[..i], [list[i]]);
      assert [list[i]][1..] == [];
      i := i + 1;
    }
    assert list[..i] == list;
  }

  method FindGranted(list: seq<TransactionInfo>, t: TxnId) returns (i: int)
    ensures i == HeldAt(list, t)
  {
    i := 0;
    while i < |list|
      invariant 0 <= i <= |list|
      invariant forall k :: 0 <= k < i ==> !(list[k].txn == t && list[k].granted)
    {
      if list[i].granted && list[i].txn == t {
        return;
      }
      i := i + 1;
    }
    i := -1;
  }

  // The lock has no holder left, its former holder being entry 0, marked: grant the
  // next waiter, and the SHARED waiters behind a SHARED one.
  method GrantNext(list: seq<TransactionInfo>, ty: LockType) returns (list': seq<TransactionInfo>, ty': LockType, cnt: nat)
    requires |list| > 0 && Queue(list[1..])
    requires forall k :: 1 <= k < |list| ==>
      (list[k].lockType == SHARED || list[k].lockType == EXCLUSIVE) && list[k].promise == Pending && !list[k].granted
    ensures |list| == 1 ==> list' == list && ty' == ty && cnt == 0
    ensures |list| > 1 ==>
      && list' == [list[0]] + WakeFirst(list[1..], Runners(list[1..]))
      && ty' == list[1].lockType && cnt == Runners(list[1..])
  {
    list', ty', cnt := list, ty, 0;
    var next := 1;
    if next < |list| {
      list' := list'[next := Wake(list'[next])];
      cnt := cnt + 1;
      ty' := list'[next].lockType;
      if list'[next].lockType == SHARED {
        if next + 1 < |list'| && list'[next + 1].lockType == EXCLUSIVE {
          assert list[1..][1].txn < list[1..][0].txn;
          if list'[next + 1].txn == list'[next].txn {
            // an upgrade right behind its own SHARED request: cannot happen
            assert false;
          }
        } else {
          next := next + 1;
          while next < |list'| && list'[next].lockType == SHARED
            invariant 2 <= next <= |list'| == |list|
            invariant forall k :: 1 <= k < next ==> list[k].lockType == SHARED
            invariant forall k :: 0 <= k < |list| ==> list'[k] == if 1 <= k < next then Wake(list[k]) else list[k]
            invariant cnt == next - 1
          {
            list' := list'[next := Wake(list'[next])];
            cnt := cnt + 1;
            next := next + 1;
          }
          RunIs(list[1..], cnt);
        }
        RunIs(list[1..], cnt);
      }
    }
  }

  lemma RunIs(list: seq<TransactionInfo>, k: nat)
    requires k <= |list| && (forall i :: 0 <= i < k ==> list[i].lockType == SHARED)
    requires k < |list| ==> list[k].lockType != SHARED
    ensures SharedRun(list) == k
  {
  }

  method FindShared(list: seq<TransactionInfo>, t: TxnId) returns (i: nat)
    ensures i <= |list|
    ensures i < |list| ==> list[i].txn == t && list[i].granted && list[i].lockType == SHARED
    ensures forall k :: 0 <= k < i ==> !(list[k].txn == t && list[k].granted && list[k].lockType == SHARED)
  {
    i := 0;
    while i < |list| && !(list[i].txn == t && list[i].granted && list[i].lockType == SHARED)
      invariant i <= |list|
      invariant forall k :: 0 <= k < i ==> !(list[k].txn == t && list[k].granted && list[k].lockType == SHARED)
    {
      i := i + 1;
    }
  }

  // Entry `i` marked for deletion.
  function Marked(list: seq<TransactionInfo>, i: nat): (r: seq<TransactionInfo>)
    requires i < |list|
    ensures |r| == |list|
  {
    list[i := list[i].(lockType := DELETE)]
  }

  lemma MarkedKept(list: seq<TransactionInfo>, i: nat)
    requires i < |list| && forall k :: 0 <= k < |list| ==> list[k].lockType != DELETE
    ensures Kept(Marked(list, i)) == Without(list, i)
  {
    KeptOne(Marked(list, i), i);
  }

  // The last holder leaves.
  method ReleaseLast(l: LockList) returns (l': LockList)
    requires |l.list| > 0 && Queue(l.list[1..])
    requires forall k :: 1 <= k < |l.list| ==>
      (l.list[k].lockType == SHARED || l.list[k].lockType == EXCLUSIVE) && l.list[k].promise == Pending && !l.list[k].granted
    ensures l' == Promoted(LockList(l.list[1..], l.lockType, 0))
  {
    assert Marked(l.list, 0)[1..] == l.list[1..];
    var list, ty, cnt := GrantNext(Marked(l.list, 0), l.lockType);
    var kept := RemoveDeleted(list);
    KeptOne(list, 0);
    assert kept == list[1..];
    l' := LockList(kept, ty, cnt);
  }

  lemma LastHolder(l: LockList, t: TxnId)
    requires ListOk(l) && Holds(l, t) && l.grantCnt == 1
    ensures HeldAt(l.list, t) == 0
    ensures Marked(l.list, 0)[1..] == l.list[1..] && Queue(l.list[1..])
    ensures Release(l, t) == Promoted(LockList(l.list[1..], l.lockType, 0))
  {
    assert l.list[0].granted;
    var l1 := l.(list := Without(l.list, 0), grantCnt := 0);
    DropHolder(l, l1, 0);
    QueueOk(l1);
    assert l1.list == l.list[1..];
  }

  // One holder of several leaves; when one is left, its upgrade may be due.
  method ReleaseShared(l: LockList, t: TxnId) returns (l': LockList)
    requires ListOk(l) && Holds(l, t) && l.grantCnt >= 2
    ensures HeldAt(l.list, t) >= 0 && l' == Release(l, t)
  {
    var list, ty := l.list, l.lockType;
    var i := FindGranted(list, t);
    LeftBehind(l, i);
    list := Marked(list, i);
    var cnt := l.grantCnt - 1;
    if cnt == 1 {
      list, ty := GrantUpgrade(list, i, ty);
    }
    var kept := RemoveDeleted(list);
    l' := LockList(kept, ty, cnt);
  }

  // The list with one holder marked, when one more is left.
  ghost predicate OneLeft(list: seq<TransactionInfo>, i: nat) {
    && i < 2 <= |list|
    && list[i].lockType == DELETE && list[1 - i].granted && list[1 - i].lockType == SHARED
    && forall k :: 2 <= k < |list| ==> !list[k].granted && list[k].lockType != DELETE
  }

  lemma LeftBehind(l: LockList, i: nat)
    requires ListOk(l) && i < l.grantCnt && l.grantCnt >= 2
    ensures Kept(Marked(l.list, i)) == Without(l.list, i) == Without(Marked(l.list, i), i)
    ensures l.grantCnt == 2 ==> OneLeft(Marked(l.list, i), i)
  {
    MarkedKept(l.list, i);
    var m := Marked(l.list, i);
    assert m[..i] == l.list[..i] && m[i + 1..] == l.list[i + 1..];
    if l.grantCnt == 2 {
      var l1 := l.(list := Without(l.list, i), grantCnt := 1);
      DropHolder(l, l1, i);
      WithoutAt(l.list, i);
      assert l1.list[0] == l.list[1 - i];
    }
  }

  // If the first waiter is the holder that is left, it gets its upgrade.
  method GrantUpgrade(list: seq<TransactionInfo>, i: nat, ty: LockType) returns (out: seq<TransactionInfo>, ty': LockType)
    requires OneLeft(list, i) && Kept(list) == Without(list, i)
    ensures LockList(Kept(out), ty', 1) == Upgraded(LockList(Without(list, i), ty, 1))
  {
    out, ty' := list, ty;
    var next := 2;
    WithoutAt(list, i);
    ghost var l1 := Without(list, i);
    assert l1[0] == list[1 - i] && (2 < |list| ==> l1[1] == list[2]);
    if next < |list| && list[next].lockType == EXCLUSIVE {
      var u := FindShared(list, list[next].txn);
      if u < |list| {
        assert u == 1 - i;
        out := Marked(list, u);
        out := out[next := Wake(out[next])];
        ty' := EXCLUSIVE;
        KeptTwo(out);
        UpgradedTail(list, i, out, l1);
      } else {
        assert list[1 - i].txn != list[next].txn;
      }
    }
  }

  lemma UpgradedTail(list: seq<TransactionInfo>, i: nat, out: seq<TransactionInfo>, l1: seq<TransactionInfo>)
    requires i < 2 < |list| == |out| && |l1| == |list| - 1
    requires forall k :: 0 <= k < |l1| ==> l1[k] == list[if k < i then k else k + 1]
    requires out[2] == Wake(list[2]) && forall k :: 3 <= k < |list| ==> out[k] == list[k]
    ensures out[2..] == [Wake(l1[1])] + l1[2..]
  {
  }

  lemma KeptTwo(list: seq<TransactionInfo>)
    requires |list| > 2 && list[0].lockType == DELETE && list[1].lockType == DELETE
    requires forall k :: 2 <= k < |list| ==> list[k].lockType != DELETE
    ensures Kept(list) == list[2..]
  {
    KeptOne(list[1..], 0);
    assert list[1..][1..] == list[2..];
  }

  class Manager {
    var table: map<Rid, LockList>
    var txns: map<TxnId, Txn>

    ghost function S(): State
      reads this
    {
      State(table, txns)
    }

    constructor ()
      ensures Inv(S()) && table == map[] && txns == map[]
    {
      table, txns := map[], map[];
    }

    method CheckForWaitDie(t: TxnId, r: Rid) returns (ok: bool)
      requires r in table
      ensures ok <==> MayWait(table[r], t)
    {
      var list := table[r].list;
      var i := 0;
      while i < |list|
        invariant 0 <= i <= |list|
        invariant forall k :: 0 <= k < i ==> t <= list[k].txn
      {
        if list[i].txn < t {
          return false;
        }
        i := i + 1;
      }
      return true;
    }

    // The part of a lock call before it may block.
    method LockShared(t: TxnId, r: Rid) returns (a: Answer)
      requires Inv(S()) && Enabled(S(), Lock(t, r, SHARED))
      modifies this
      ensures S() == AfterLock(old(S()), t, r, SHARED) && Inv(S())
      ensures a == Grant <==> Free(old(ListOf(S(), r)), t, SHARED)
      ensures a == Die <==> a != Grant && HasOlder(old(ListOf(S(), r)), t)
    {
      LockKeeps(S(), t, r, SHARED);
      LockAnswer(S(), t, r, SHARED);
      if r !in table || |table[r].list| == 0 {
        var l := if r !in table then NEW_LIST else table[r];
        table := table[r := LockList(l.list + [Info(t, true, SHARED, NoPromise)], SHARED, l.grantCnt + 1)];
        txns := txns[t := txns[t].(shared := txns[t].shared + {r})];
        return Grant;
      }
      var l := table[r];
      if l.lockType == SHARED && l.list[|l.list| - 1].granted {
        table := table[r := LockList(l.list + [Info(t, true, SHARED, NoPromise)], l.lockType, l.grantCnt + 1)];
        txns := txns[t := txns[t].(shared := txns[t].shared + {r})];
        return Grant;
      }
      var ok := CheckForWaitDie(t, r);
      if ok {
        table := table[r := LockList(l.list + [Info(t, false, SHARED, Pending)], l.lockType, l.grantCnt)];
        return Wait;
      }
      txns := txns[t := txns[t].(state := ABORTED)];
      return Die;
    }

    method LockExclusive(t: TxnId, r: Rid) returns (a: Answer)
      requires Inv(S()) && Enabled(S(), Lock(t, r, EXCLUSIVE))
      modifies this
      ensures S() == AfterLock(old(S()), t, r, EXCLUSIVE) && Inv(S())
      ensures a == Grant <==> Free(old(ListOf(S(), r)), t, EXCLUSIVE)
      ensures a == Die <==> a != Grant && HasOlder(old(ListOf(S(), r)), t)
    {
      LockKeeps(S(), t, r, EXCLUSIVE);
      LockAnswer(S(), t, r, EXCLUSIVE);
      assert txns[t].shared - {r} == txns[t].shared;
      if r !in table || |table[r].list| == 0 {
        var l := if r !in table then NEW_LIST else table[r];
        table := table[r := LockList(l.list + [Info(t, true, EXCLUSIVE, NoPromise)], EXCLUSIVE, l.grantCnt + 1)];
        txns := txns[t := txns[t].(exclusive := txns[t].exclusive + {r})];
        return Grant;
      }
      var l := table[r];
      var ok := CheckForWaitDie(t, r);
      if ok {
        table := table[r := LockList(l.list + [Info(t, false, EXCLUSIVE, Pending)], l.lockType, l.grantCnt)];
        return Wait;
      }
      txns := txns[t := txns[t].(state := ABORTED)];
      return Die;
    }

    method LockUpgrade(t: TxnId, r: Rid) returns (a: Answer)
      requires Inv(S()) && Enabled(S(), LockManager.LockUpgrade(t, r))
      modifies this
      ensures S() == AfterUpgrade(old(S()), t, r) && Inv(S())
      ensures a == Grant <==> OnlyHolder(old(ListOf(S(), r)), t)
      ensures a == Die <==> a != Grant && HasOlder(old(ListOf(S(), r)), t)
    {
      UpgradeStepKeeps(S(), t, r);
      UpgradeStepAnswer(S(), t, r);
      Upgrader(S(), t, r);
      var l := table[r];
      if l.lockType == SHARED && l.grantCnt == 1 {
        assert l.list[0].txn == t by { assert RecordOk(S(), r); }
        table := table[r := LockList(l.list[0 := l.list[0].(lockType := EXCLUSIVE)], EXCLUSIVE, l.grantCnt)];
        txns := txns[t := txns[t].(shared := txns[t].shared - {r}, exclusive := txns[t].exclusive + {r})];
        return Grant;
      }
      var ok := CheckForWaitDie(t, r);
      if ok {
        table := table[r := LockList(l.list + [Info(t, false, EXCLUSIVE, Pending)], l.lockType, l.grantCnt)];
        return Wait;
      }
      txns := txns[t := txns[t].(state := ABORTED)];
      return Die;
    }

    // The part of a lock call after its promise is fulfilled.  `upgrade` tells
    // LockUpgrade, which also drops the record from the shared set.
    method Resume(t: TxnId, r: Rid, upgrade: bool)
      requires Inv(S()) && Enabled(S(), WakeUp(t, r))
      requires !upgrade && table[r].list[WokenAt(table[r].list, t)].lockType == EXCLUSIVE ==> r !in txns[t].shared
      requires upgrade ==> table[r].list[WokenAt(table[r].list, t)].lockType == EXCLUSIVE
      modifies this
      ensures S() == AfterWake(old(S()), t, r) && Inv(S())
    {
      WakeKeeps(S(), t, r);
      assert RecordOk(S(), r);
      assert !upgrade && r !in txns[t].shared ==> txns[t].shared - {r} == txns[t].shared;
      var list := table[r].list;
      var i := FindWoken(list, t);
      table := table[r := table[r].(list := list[i := list[i].(promise := NoPromise)])];
      if txns[t].state == ABORTED {
        return;
      }
      if list[i].lockType == SHARED {
        txns := txns[t := txns[t].(shared := txns[t].shared + {r})];
      } else {
        var x := txns[t].(exclusive := txns[t].exclusive + {r});
        if upgrade {
          x := x.(shared := x.shared - {r});
        }
        txns := txns[t := x];
      }
    }

    method Unlock(t: TxnId, r: Rid)
      requires Inv(S()) && Enabled(S(), LockManager.Unlock(t, r))
      modifies this
      ensures HeldAt(old(ListOf(S(), r)).list, t) >= 0
      ensures S() == AfterUnlock(old(S()), t, r) && Inv(S())
    {
      UnlockKeeps(S(), t, r);
      assert RecordOk(S(), r);
      if txns[t].state == GROWING {
        txns := txns[t := txns[t].(state := SHRINKING)];
      }
      var l := table[r];
      var l';
      if l.grantCnt - 1 == 0 {
        LastHolder(l, t);
        l' := ReleaseLast(l);
      } else {
        l' := ReleaseShared(l, t);
      }
      table := table[r := l'];
    }

    method IsClean() returns (clean: bool)
      ensures clean <==> forall r :: r in table ==> table[r].list == []
    {
      clean := AllEmpty(table);
    }
  }

  method AllEmpty(table: map<Rid, LockList>) returns (empty: bool)
    ensures empty <==> forall r :: r in table ==> table[r].list == []
  {
    var todo := table.Keys;
    while todo != {}
      invariant todo <= table.Keys
      invariant forall r :: r in table && r !in todo ==> table[r].list == []
      decreases |todo|
    {
      assert (forall r :: r !in todo) ==> todo == {};
      var r :| r in todo;
      if |table[r].list| != 0 {
        return false;
      }
      todo := todo - {r};
    }
    return true;
  }

  method FindWoken(list: seq<TransactionInfo>, t: TxnId) returns (i: int)
    ensures i == WokenAt(list, t)
  {
    i := 0;
    while i < |list|
      invariant 0 <= i <= |list|
      invariant forall k :: 0 <= k < i ==> !(list[k].txn == t && list[k].promise == Fulfilled)
    {
      if list[i].txn == t && list[i].promise == Fulfilled {
        return;
      }
      i := i + 1;
    }
    i := -1;
  }
}
