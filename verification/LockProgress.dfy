/**
 Wait-die gives progress: waiting goes from older to younger transactions, so somebody
 can always move, and a run in which transactions only wake up and release their locks
 ends with an empty lock table in which every waiter has had its turn.
 */
module LockProgress {
  import opened LockTable
  import opened LockManager

  // ----- Waiting goes one way -----

  // `t` waits on a record on which `u` is listed ahead of it.
  ghost predicate WaitsFor(s: State, t: TxnId, u: TxnId) {
    exists r, i, j :: WaitsAt(s, t, u, r, i, j)
  }

  ghost predicate WaitsAt(s: State, t: TxnId, u: TxnId, r: Rid, i: nat, j: nat) {
    && r in s.table && t != u
    && i < j < |s.table[r].list|
    && s.table[r].list[i].txn == u && s.table[r].list[j].txn == t && !s.table[r].list[j].granted
  }

  /** Along any path of waits-for edges, over any records, transaction ids grow; so
      there is no deadlock. */
  lemma {:induction false} NoDeadlock(s: State, path: seq<TxnId>)
    requires Inv(s) && |path| >= 2
    requires forall n :: 0 <= n < |path| - 1 ==> WaitsFor(s, path[n], path[n + 1])
    ensures path[0] < path[|path| - 1]
    decreases |path|
  {
    assert WaitsFor(s, path[0], path[1]);
    var r, i, j :| WaitsAt(s, path[0], path[1], r, i, j);
    assert RecordOk(s, r);
    if |path| > 2 {
      forall n | 0 <= n < |path[1..]| - 1
        ensures WaitsFor(s, path[1..][n], path[1..][n + 1])
      {
        assert WaitsFor(s, path[n + 1], path[n + 2]);
      }
      NoDeadlock(s, path[1..]);
    }
  }

  // ----- Somebody can move -----

  ghost predicate Clean(s: State) {
    forall r :: r in s.table ==> s.table[r].list == []
  }

  // A step that takes locks away: no new requests.
  ghost predicate Drains(s: State, e: Event) {
    (e.Unlock? || e.WakeUp?) && Enabled(s, e)
  }

  predicate HoldsSome(s: State, t: TxnId) {
    exists r :: r in s.table && Holds(s.table[r], t)
  }

  lemma Youngest(ids: set<TxnId>) returns (m: TxnId)
    requires ids != {}
    ensures m in ids && forall x :: x in ids ==> x <= m
    decreases |ids|
  {
    assert (forall x :: x !in ids) ==> ids == {};
    m :| m in ids;
    var rest := ids - {m};
    assert forall x :: x in ids ==> x == m || x in rest;
    if rest != {} {
      var k := Youngest(rest);
      if k > m { m := k; }
    } else {
      assert forall x :: x in ids ==> x !in rest;
    }
  }

  // The youngest holder waits for nobody.
  lemma YoungestRuns(s: State, t: TxnId, r: Rid)
    requires Inv(s) && r in s.table
    requires forall u :: u in s.txns && HoldsSome(s, u) ==> u <= t
    requires forall x, u :: x in s.table ==> WokenAt(s.table[x].list, u) < 0
    ensures !Waiting(s, t, r)
  {
    assert RecordOk(s, r);
    var l := s.table[r];
    forall i | 0 <= i < |l.list|
      ensures l.list[i].txn in s.txns && (i < l.grantCnt ==> l.list[i].txn <= t)
    {
      assert EntryOk(s, r, l.list[i]);
      if i < l.grantCnt {
        assert Holds(l, l.list[i].txn);
        assert HoldsSome(s, l.list[i].txn);
      }
    }
    forall j | 0 <= j < |l.list| && l.list[j].txn == t
      ensures l.list[j].promise == NoPromise
    {
      assert WokenAt(l.list, t) < 0;
    }
  }

  /** In a reachable state that is not clean, some transaction can wake up or release a lock. */
  lemma SomebodyMoves(s: State) returns (e: Event)
    requires Inv(s) && !Clean(s)
    ensures Drains(s, e)
  {
    if x, u :| x in s.table && WokenAt(s.table[x].list, u) >= 0 {
      assert RecordOk(s, x);
      assert EntryOk(s, x, s.table[x].list[WokenAt(s.table[x].list, u)]);
      return WakeUp(u, x);
    }
    var r :| r in s.table && s.table[r].list != [];
    assert RecordOk(s, r);
    var l := s.table[r];
    assert EntryOk(s, r, l.list[0]);
    assert Holds(l, l.list[0].txn);
    var holders := set t | t in s.txns && HoldsSome(s, t);
    assert l.list[0].txn in holders;
    var t := Youngest(holders);
    assert forall u :: u in s.txns && HoldsSome(s, u) ==> u in holders;
    var y :| y in s.table && Holds(s.table[y], t);
    forall x | x in s.table
      ensures !Waiting(s, t, x)
    {
      YoungestRuns(s, t, x);
    }
    return Unlock(t, y);
  }

  // ----- The work left -----

  function Weight(e: TransactionInfo): nat {
    match e.promise
    case NoPromise => 1
    case Fulfilled => 2
    case Pending => 3
  }

  function ListWeight(list: seq<TransactionInfo>): nat {
    if list == [] then 0 else Weight(list[0]) + ListWeight(list[1..])
  }

  lemma {:induction false} WeightConcat(a: seq<TransactionInfo>, b: seq<TransactionInfo>)
    ensures ListWeight(a + b) == ListWeight(a) + ListWeight(b)
  {
    if a == [] {
      assert a + b == b;
    } else {
      assert (a + b)[1..] == a[1..] + b;
      WeightConcat(a[1..], b);
    }
  }

  lemma {:induction false} WeightUpdate(list: seq<TransactionInfo>, i: nat, e: TransactionInfo)
    requires i < |list|
    ensures ListWeight(list[i := e]) == ListWeight(list) - Weight(list[i]) + Weight(e)
  {
    if i > 0 {
      assert list[i := e][1..] == list[1..][i - 1 := e];
      WeightUpdate(list[1..], i - 1, e);
    } else {
      assert list[i := e][1..] == list[1..];
    }
  }

  lemma {:induction false} WeightWithout(list: seq<TransactionInfo>, i: nat)
    requires i < |list|
    ensures ListWeight(Without(list, i)) == ListWeight(list) - Weight(list[i])
  {
    assert list == list[..i] + [list[i]] + list[i + 1..];
    WeightConcat(list[..i] + [list[i]], list[i + 1..]);
    WeightConcat(list[..i], [list[i]]);
    WeightConcat(list[..i], list[i + 1..]);
    assert [list[i]][1..] == [];
  }

  lemma {:induction false} WeightWoken(list: seq<TransactionInfo>, k: nat)
    requires k <= |list| && forall i :: 0 <= i < |list| ==> list[i].promise == Pending
    ensures ListWeight(WakeFirst(list, k)) <= ListWeight(list)
  {
    if list != [] {
      var woken := WakeFirst(list, k);
      assert woken[1..] == WakeFirst(list[1..], if k == 0 then 0 else k - 1);
      WeightWoken(list[1..], if k == 0 then 0 else k - 1);
    }
  }

  lemma ReleaseWeight(l: LockList, t: TxnId)
    requires ListOk(l) && Holds(l, t)
    ensures HeldAt(l.list, t) >= 0 && ListWeight(Release(l, t).list) < ListWeight(l.list)
  {
    var i := HeldAt(l.list, t);
    var l1 := l.(list := Without(l.list, i), grantCnt := l.grantCnt - 1);
    WeightWithout(l.list, i);
    DropHolder(l, l1, i);
    GrantingWeight(l1);
  }

  lemma {:induction false} GrantingWeight(l1: LockList)
    requires forall k :: 0 <= k < |l1.list| ==> (l1.list[k].promise == Pending <==> k >= l1.grantCnt)
    ensures ListWeight(Granting(l1).list) <= ListWeight(l1.list)
  {
    if l1.grantCnt == 0 && |l1.list| > 0 {
      WeightWoken(l1.list, Runners(l1.list));
    } else if l1.grantCnt == 1 && Upgraded(l1) != l1 {
      var list := l1.list;
      assert list == [list[0]] + [list[1]] + list[2..];
      WeightConcat([list[0]] + [list[1]], list[2..]);
      WeightConcat([list[0]], [list[1]]);
      WeightConcat([Wake(list[1])], list[2..]);
      assert [list[0]][1..] == [] && [list[1]][1..] == [] && [Wake(list[1])][1..] == [];
    }
  }

  // The weight of a whole lock table, summed in some order.
  ghost function Total(table: map<Rid, LockList>): nat
    decreases |table.Keys|
  {
    if table.Keys == {} then 0
    else
      assert (forall r :: r !in table.Keys) ==> table.Keys == {};
      var r :| r in table.Keys;
      assert (table - {r}).Keys == table.Keys - {r};
      ListWeight(table[r].list) + Total(table - {r})
  }

  lemma {:induction false} TotalSplit(table: map<Rid, LockList>, r: Rid)
    requires r in table
    ensures Total(table) == ListWeight(table[r].list) + Total(table - {r})
    decreases |table.Keys|
  {
    assert (forall x :: x !in table.Keys) ==> table.Keys == {};
    var x :| x in table.Keys && Total(table) == ListWeight(table[x].list) + Total(table - {x});
    assert (table - {x}).Keys == table.Keys - {x};
    if x != r {
      TotalSplit(table - {x}, r);
      assert (table - {r}).Keys == table.Keys - {r};
      TotalSplit(table - {r}, x);
      assert (table - {x}) - {r} == (table - {r}) - {x};
    }
  }

  lemma TotalUpdate(table: map<Rid, LockList>, r: Rid, l: LockList)
    requires r in table && ListWeight(l.list) < ListWeight(table[r].list)
    ensures Total(table[r := l]) < Total(table)
  {
    TotalSplit(table, r);
    TotalSplit(table[r := l], r);
    assert table[r := l] - {r} == table - {r};
  }

  lemma DrainShrinks(s: State, e: Event)
    requires Inv(s) && Drains(s, e)
    ensures Total(Apply(s, e).table) < Total(s.table)
  {
    assert RecordOk(s, e.r);
    var l := s.table[e.r];
    if e.Unlock? {
      ReleaseWeight(l, e.t);
      TotalUpdate(s.table, e.r, Release(l, e.t));
    } else {
      var i := WokenAt(l.list, e.t);
      var l' := l.(list := l.list[i := l.list[i].(promise := NoPromise)]);
      WeightUpdate(l.list, i, l.list[i].(promise := NoPromise));
      TotalUpdate(s.table, e.r, l');
    }
  }

  // ----- Draining runs -----

  ghost predicate DrainStep(s: State, e: Event, s': State) {
    Drains(s, e) && s' == Apply(s, e)
  }

  // A run without new requests, from any state.
  ghost predicate IsDrain(ss: seq<State>, es: seq<Event>) {
    && |ss| == |es| + 1
    && forall n :: 0 <= n < |es| ==> DrainStep(ss[n], es[n], ss[n + 1])
  }

  lemma {:induction false} DrainInv(ss: seq<State>, es: seq<Event>, n: nat)
    requires IsDrain(ss, es) && Inv(ss[0]) && n < |ss|
    ensures Inv(ss[n]) && n + Total(ss[n].table) <= Total(ss[0].table)
  {
    if n > 0 {
      DrainInv(ss, es, n - 1);
      assert DrainStep(ss[n - 1], es[n - 1], ss[n]);
      StepKeeps(ss[n - 1], es[n - 1]);
      DrainShrinks(ss[n - 1], es[n - 1]);
    }
  }

  // A sleeping transaction sleeps on until it wakes up.
  lemma SleepsOn(s: State, e: Event, t: TxnId, r: Rid)
    requires Inv(s) && Drains(s, e) && Waiting(s, t, r) && e != WakeUp(t, r)
    ensures Waiting(Apply(s, e), t, r)
  {
    assert RecordOk(s, e.r);
    if e.r == r {
      var l := s.table[r];
      if e.Unlock? {
        ReleaseEntries(l, e.t);
        ReleaseOthers(l, HeldAt(l.list, e.t), Release(l, e.t), t);
      } else {
        var i := WokenAt(l.list, e.t);
        WakeSleepers(l, l.(list := l.list[i := l.list[i].(promise := NoPromise)]), i);
      }
    }
  }

  lemma {:induction false} WokenBefore(ss: seq<State>, es: seq<Event>, t: TxnId, r: Rid, n: nat) returns (k: nat)
    requires IsDrain(ss, es) && Inv(ss[0]) && n < |ss| && Waiting(ss[0], t, r) && !Waiting(ss[n], t, r)
    ensures k < n && es[k] == WakeUp(t, r)
  {
    if Waiting(ss[n - 1], t, r) {
      k := n - 1;
      DrainInv(ss, es, k);
      assert DrainStep(ss[k], es[k], ss[n]);
      if es[k] != WakeUp(t, r) {
        SleepsOn(ss[k], es[k], t, r);
      }
    } else {
      k := WokenBefore(ss, es, t, r, n - 1);
    }
  }

  /** A run in which nobody asks for new locks is no longer than the work left, can go on
      until the lock table is clean, and by then has granted every waiter. */
  lemma DrainEnds(ss: seq<State>, es: seq<Event>)
    requires IsDrain(ss, es) && Inv(ss[0])
    ensures |es| <= Total(ss[0].table)
    ensures (forall e :: !Drains(ss[|es|], e)) ==> Clean(ss[|es|])
    ensures Clean(ss[|es|]) ==>
      forall t, r :: Waiting(ss[0], t, r) ==> exists k :: 0 <= k < |es| && es[k] == WakeUp(t, r)
  {
    DrainInv(ss, es, |es|);
    var s := ss[|es|];
    if !Clean(s) {
      var e := SomebodyMoves(s);
    } else {
      forall t, r | Waiting(ss[0], t, r)
        ensures exists k :: 0 <= k < |es| && es[k] == WakeUp(t, r)
      {
        var k := WokenBefore(ss, es, t, r, |es|);
      }
    }
  }
}
