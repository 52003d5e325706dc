/**
 Undoing a run whether or not every undo step finds room: an update that cannot be undone
 leaves its slot with another tuple, or with none, but the marks and the order of the
 tuples stay those of the run, so that every other undo step works and restores its slot.
 */
module TableUndo {
  import opened Bytes
  import opened TablePageLayout
  import opened TablePageOperations
  import opened TableRollback

  // What undoing does not give back: slots that were updated, those of them that are empty
  // now, and slots that lost a mark which the run did not set.
  datatype Drift = Drift(touched: set<nat>, gone: set<nat>, revived: set<nat>)

  // ----- A page that drifted from another -----

  ghost predicate SameKind(s: Slot, s': Slot, gone: bool, revived: bool) {
    && (s.size == 0 ==> s'.size == 0)
    && (s.size > 0 ==> if gone then s'.size == 0 else s'.size > 0)
    && (s.size < 0 ==> if revived then s'.size > 0 else s'.size < 0)
  }

  ghost predicate SameOrder(p: Page, q: Page, j: nat, k: nat)
    requires j < |p.slots| <= |q.slots| && k < |p.slots|
  {
    p.slots[j].size != 0 && p.slots[k].size != 0 && q.slots[j].size != 0 && q.slots[k].size != 0 ==>
      (p.slots[j].offset < p.slots[k].offset <==> q.slots[j].offset < q.slots[k].offset)
  }

  // A tuple above a marked one has kept its length, if it is still there.
  ghost predicate SameLength(p: Page, q: Page, j: nat)
    requires j < |p.slots| <= |q.slots|
  {
    (exists m :: MarkedBelow(p, j, m)) && p.slots[j].size != 0 && q.slots[j].size != 0 ==>
      Len(p.slots[j]) == Len(q.slots[j])
  }

  ghost predicate LikeAt(p: Page, q: Page, d: Drift, j: nat)
    requires WellFormed(p) && WellFormed(q) && j < |p.slots| <= |q.slots|
  {
    && SameKind(p.slots[j], q.slots[j], j in d.gone, j in d.revived)
    && SameLength(p, q, j)
    && (j !in d.touched ==> Items(q)[j] == UnmarkedItem(Items(p)[j], j in d.revived))
  }

  ghost predicate Like(p: Page, q: Page, d: Drift) {
    && WellFormed(p) && WellFormed(q)
    && |p.slots| <= |q.slots|
    && (forall j {:trigger q.slots[j]} :: |p.slots| <= j < |q.slots| ==> q.slots[j].size == 0)
    && (forall j {:trigger LikeAt(p, q, d, j)} :: 0 <= j < |p.slots| ==> LikeAt(p, q, d, j))
    && (forall j, k {:trigger SameOrder(p, q, j, k)} :: 0 <= j < |p.slots| && 0 <= k < |p.slots| ==> SameOrder(p, q, j, k))
  }

  lemma LikeItself(p: Page, touched: set<nat>)
    requires WellFormed(p)
    ensures Like(p, p, Drift(touched, {}, {}))
  {
  }

  // ----- Undoing an insert -----

  lemma UndoInsertLike(p: Page, t: seq<byte>, q: Page, d: Drift)
    requires WellFormed(p) && t != [] && CanInsert(p, t) && Like(Inserted(p, t), q, d) && FreeSlot(p.slots) !in d.gone
    ensures var i := FreeSlot(p.slots);
      i < |q.slots| && q.slots[i].size > 0 && InPage(q, i) && Like(p, Purged(q, i), d)
  {
    var i, p1 := FreeSlot(p.slots), Inserted(p, t);
    assert LikeAt(p1, q, d, i) && InPage(q, i);
    var q1 := Purged(q, i);
    PurgeRefines(q, i);
    forall j | 0 <= j < |p.slots|
      ensures LikeAt(p, q1, d, j)
    {
      InsertAt(p, t, q, d, j, q1);
    }
    forall j, k | 0 <= j < |p.slots| && 0 <= k < |p.slots|
      ensures SameOrder(p, q1, j, k)
    {
      InsertOrder(p, t, q, d, j, k);
    }
    forall j | |p.slots| <= j < |q1.slots|
      ensures q1.slots[j].size == 0
    {
      assert j != i ==> q.slots[j].size == 0;
    }
  }

  lemma InsertOrder(p: Page, t: seq<byte>, q: Page, d: Drift, j: nat, k: nat)
    requires WellFormed(p) && t != [] && CanInsert(p, t) && Like(Inserted(p, t), q, d)
    requires j < |p.slots| && k < |p.slots|
    requires var i := FreeSlot(p.slots); i < |q.slots| && q.slots[i].size != 0 && InPage(q, i)
    ensures SameOrder(p, Purged(q, FreeSlot(p.slots)), j, k)
  {
    var i, p1 := FreeSlot(p.slots), Inserted(p, t);
    PurgeSpliced(q, i);
    if p.slots[j].size != 0 && p.slots[k].size != 0 && q.slots[j].size != 0 && q.slots[k].size != 0 {
      assert j != i && k != i && p1.slots[j] == p.slots[j] && p1.slots[k] == p.slots[k];
      assert SameOrder(p1, q, j, k);
      SplicedOrder(q, Purged(q, i), i, q.slots[i].offset, Len(q.slots[i]), [], j, k);
    }
  }

  lemma InsertAt(p: Page, t: seq<byte>, q: Page, d: Drift, j: nat, q1: Page)
    requires WellFormed(p) && t != [] && CanInsert(p, t) && Like(Inserted(p, t), q, d) && j < |p.slots|
    requires var i := FreeSlot(p.slots);
      i < |q.slots| && q.slots[i].size != 0 && InPage(q, i) && q1 == Purged(q, i)
    requires WellFormed(q1) && Items(q1) == Items(q)[FreeSlot(p.slots) := Empty]
    ensures LikeAt(p, q1, d, j)
  {
    var i, p1 := FreeSlot(p.slots), Inserted(p, t);
    if j != i {
      assert LikeAt(p1, q, d, j);
      SameItem(p, t, j);
      assert q1.slots[j].size == q.slots[j].size;
      assert forall m :: MarkedBelow(p, j, m) ==> MarkedBelow(p1, j, m);
    }
  }

  lemma SameItem(p: Page, t: seq<byte>, j: nat)
    requires WellFormed(p) && t != [] && CanInsert(p, t) && j < |p.slots| && j != FreeSlot(p.slots)
    ensures WellFormed(Inserted(p, t)) && Items(Inserted(p, t))[j] == Items(p)[j] && Inserted(p, t).slots[j] == p.slots[j]
  {
    InsertRefines(p, t);
  }

  // ----- Undoing a delete -----

  lemma UndoDeleteLike(p: Page, i: nat, q: Page, d: Drift)
    requires WellFormed(p) && Like(Done(p, DeleteOp(i)), q, d) && i < |q.slots|
    requires i < |p.slots| && p.slots[i].size > 0 ==> i !in d.gone
    ensures Works(q, Deleting(i)) && Like(p, Undone(q, Deleting(i)), d.(revived := d.revived + RevivedBy(p, DeleteOp(i))))
  {
    var p1, q1, d1 := Done(p, DeleteOp(i)), Undone(q, Deleting(i)), d.(revived := d.revived + RevivedBy(p, DeleteOp(i)));
    assert InPage(q, i);
    FlipRefines(q, i);
    forall j | 0 <= j < |p.slots|
      ensures LikeAt(p, q1, d1, j)
    {
      DeletedAt(p, i, q, d, j);
    }
    forall j, k | 0 <= j < |p.slots| && 0 <= k < |p.slots|
      ensures SameOrder(p, q1, j, k)
    {
      assert SameOrder(p1, q, j, k);
    }
    forall j | |p.slots| <= j < |q1.slots|
      ensures q1.slots[j].size == 0
    {
      assert q.slots[j].size == 0;
    }
  }

  lemma DeletedItem(p: Page, i: nat, j: nat)
    requires WellFormed(p) && j < |p.slots|
    ensures var p1 := Done(p, DeleteOp(i));
      && WellFormed(p1) && |p1.slots| == |p.slots|
      && Items(p1)[j] == (if j == i && Items(p)[j].Live? then Marked(Items(p)[j].bytes) else Items(p)[j])
  {
    if i < |p.slots| { FlipRefines(p, i); }
  }

  lemma DeletedAt(p: Page, i: nat, q: Page, d: Drift, j: nat)
    requires WellFormed(p) && Like(Done(p, DeleteOp(i)), q, d) && i < |q.slots| && InPage(q, i) && j < |p.slots|
    requires i < |p.slots| && p.slots[i].size > 0 ==> i !in d.gone
    requires WellFormed(Flipped(q, i)) && Items(Flipped(q, i)) == Items(q)[i := FlippedItem(Items(q)[i])]
    ensures LikeAt(p, Undone(q, Deleting(i)), d.(revived := d.revived + RevivedBy(p, DeleteOp(i))), j)
  {
    var p1 := Done(p, DeleteOp(i));
    assert LikeAt(p1, q, d, j);
    DeletedItem(p, i, j);
    assert forall m :: MarkedBelow(p, j, m) ==> MarkedBelow(p1, j, m);
  }

  // ----- Undoing an update -----

  // The marked tuples below another one are the same before and after an update.
  lemma UpdateMarks(p: Page, i: nat, t: seq<byte>, j: nat, m: int)
    requires WellFormed(p) && i < |p.slots| && p.slots[i].size > 0 && SafeUpdate(p, i, t) && InPage(p, i)
    requires j < |p.slots| && p.slots[j].size != 0 && (j == i ==> t != [])
    ensures MarkedBelow(p, j, m) <==> MarkedBelow(Updated(p, i, t), j, m)
  {
    var p1 := Updated(p, i, t);
    UpdateSpliced(p, i, t);
    if 0 <= m < |p.slots| && p.slots[m].size < 0 {
      assert p1.slots[m].size == p.slots[m].size;
      SplicedOrder(p, p1, i, p.slots[i].offset, p.slots[i].size, t, m, j);
    }
  }

  // A length may only differ where nothing marked lies below, so undoing is safe.
  lemma UndoIsSafe(p: Page, i: nat, t: seq<byte>, q: Page, d: Drift, b: seq<byte>)
    requires WellFormed(p) && i < |p.slots| && p.slots[i].size > 0 && SafeUpdate(p, i, t) && InPage(p, i) && t != []
    requires Like(Updated(p, i, t), q, d) && |b| == p.slots[i].size && q.slots[i].size > 0
    ensures SafeUpdate(q, i, b)
    ensures (exists m :: MarkedBelow(p, i, m)) ==> q.slots[i].size == |b|
  {
    var p1 := Updated(p, i, t);
    assert LikeAt(p1, q, d, i);
    forall m | MarkedBelow(p, i, m)
      ensures q.slots[i].size == |b|
    {
      UpdateMarks(p, i, t, i, m);
    }
    forall m | MarkedBelow(q, i, m)
      ensures q.slots[i].size == |b|
    {
      assert m < |p1.slots|;
      assert LikeAt(p1, q, d, m) && SameOrder(p1, q, m, i);
      assert MarkedBelow(p1, i, m);
      UpdateMarks(p, i, t, i, m);
    }
  }

  lemma UpdatedOrder(p: Page, i: nat, t: seq<byte>, q: Page, d: Drift, j: nat, k: nat)
    requires WellFormed(p) && i < |p.slots| && p.slots[i].size > 0 && SafeUpdate(p, i, t) && InPage(p, i)
    requires Like(Updated(p, i, t), q, d) && j < |p.slots| && k < |p.slots|
    ensures SameOrder(p, q, j, k)
  {
    var p1 := Updated(p, i, t);
    UpdateSpliced(p, i, t);
    assert SameOrder(p1, q, j, k) && LikeAt(p1, q, d, j) && LikeAt(p1, q, d, k);
    if p.slots[j].size != 0 && p.slots[k].size != 0 && p1.slots[j].size != 0 && p1.slots[k].size != 0 {
      SplicedOrder(p, p1, i, p.slots[i].offset, p.slots[i].size, t, j, k);
    }
  }

  // A slot beside the updated one is like before the update.
  lemma BesideUpdate(p: Page, i: nat, t: seq<byte>, q: Page, d: Drift, j: nat)
    requires WellFormed(p) && i < |p.slots| && CanUpdate(p, i, t) && SafeUpdate(p, i, t) && InPage(p, i)
    requires Like(Updated(p, i, t), q, d) && j < |p.slots| && j != i
    ensures LikeAt(p, q, d, j)
  {
    var p1 := Updated(p, i, t);
    UpdateRefines(p, i, t);
    assert LikeAt(p1, q, d, j) && p1.slots[j].size == p.slots[j].size;
    forall m | MarkedBelow(p, j, m) && p.slots[j].size != 0
      ensures MarkedBelow(p1, j, m)
    {
      UpdateMarks(p, i, t, j, m);
    }
  }

  ghost function EmptiedBy(p: Page, op: Op): set<nat> {
    if Updates(p, op) && op.tuple == [] then {op.slot} else {}
  }

  // An update that cannot be undone, because there is no room or because the slot is empty.
  lemma StuckLike(p: Page, i: nat, t: seq<byte>, q: Page, d: Drift)
    requires WellFormed(p) && i < |p.slots| && CanUpdate(p, i, t) && SafeUpdate(p, i, t) && InPage(p, i)
    requires i in d.touched && Like(Updated(p, i, t), q, d)
    requires q.slots[i].size > 0 ==> Room(q) < p.slots[i].size - q.slots[i].size
    ensures Like(p, q, d.(gone := d.gone + EmptiedBy(p, UpdateOp(i, t))))
  {
    var p1, d1 := Updated(p, i, t), d.(gone := d.gone + EmptiedBy(p, UpdateOp(i, t)));
    assert LikeAt(p1, q, d, i);
    if q.slots[i].size > 0 { UndoIsSafe(p, i, t, q, d, BytesAt(p, p.slots[i])); }
    forall j | 0 <= j < |p.slots|
      ensures LikeAt(p, q, d1, j)
    {
      if j != i { BesideUpdate(p, i, t, q, d, j); }
    }
    forall j, k | 0 <= j < |p.slots| && 0 <= k < |p.slots|
      ensures SameOrder(p, q, j, k)
    {
      UpdatedOrder(p, i, t, q, d, j, k);
    }
    forall j | |p.slots| <= j < |q.slots|
      ensures q.slots[j].size == 0
    {
      assert |p1.slots| == |p.slots|;
    }
  }

  lemma OrderAfter(q: Page, i: nat, b: seq<byte>, j: nat, k: nat)
    requires WellFormed(q) && i < |q.slots| && q.slots[i].size > 0 && SafeUpdate(q, i, b) && InPage(q, i) && b != []
    requires j < |q.slots| && k < |q.slots|
    ensures SameOrder(q, Updated(q, i, b), j, k)
    ensures q.slots[j].size == 0 <==> Updated(q, i, b).slots[j].size == 0
    ensures q.slots[k].size == 0 <==> Updated(q, i, b).slots[k].size == 0
  {
    UpdateSpliced(q, i, b);
    if q.slots[j].size != 0 && q.slots[k].size != 0 {
      SplicedOrder(q, Updated(q, i, b), i, q.slots[i].offset, q.slots[i].size, b, j, k);
    }
  }

  lemma UndoUpdateLike(p: Page, i: nat, t: seq<byte>, q: Page, d: Drift, b: seq<byte>)
    requires WellFormed(p) && i < |p.slots| && CanUpdate(p, i, t) && SafeUpdate(p, i, t) && InPage(p, i) && t != []
    requires i in d.touched && Like(Updated(p, i, t), q, d) && |b| == p.slots[i].size
    requires CanUpdate(q, i, b) && InPage(q, i)
    ensures Like(p, Updated(q, i, b), d)
  {
    var q1 := Updated(q, i, b);
    UndoIsSafe(p, i, t, q, d, b);
    UpdateRefines(q, i, b);
    assert LikeAt(Updated(p, i, t), q, d, i);
    forall j | 0 <= j < |p.slots|
      ensures LikeAt(p, q1, d, j)
    {
      if j != i {
        BesideUpdate(p, i, t, q, d, j);
        assert q1.slots[j].size == q.slots[j].size;
      }
    }
    forall j, k | 0 <= j < |p.slots| && 0 <= k < |p.slots|
      ensures SameOrder(p, q1, j, k)
    {
      UpdatedOrder(p, i, t, q, d, j, k);
      OrderAfter(q, i, b, j, k);
    }
    forall j | |p.slots| <= j < |q1.slots|
      ensures q1.slots[j].size == 0
    {
      assert q.slots[j].size == 0;
    }
  }

  lemma UndoUpdateStep(p: Page, i: nat, t: seq<byte>, q: Page, d: Drift)
    requires WellFormed(p) && i < |p.slots| && InPage(p, i) && CanUpdate(p, i, t) && SafeUpdate(p, i, t)
    requires i in d.touched && Like(Updated(p, i, t), q, d)
    ensures Like(p, Undone(q, Updating(i, BytesAt(p, p.slots[i]))), d.(gone := d.gone + EmptiedBy(p, UpdateOp(i, t))))
  {
    var b := BytesAt(p, p.slots[i]);
    assert LikeAt(Updated(p, i, t), q, d, i) && InPage(q, i);
    if CanUpdate(q, i, b) {
      UndoUpdateLike(p, i, t, q, d, b);
      assert d.gone + EmptiedBy(p, UpdateOp(i, t)) == d.gone;
    } else {
      StuckLike(p, i, t, q, d);
    }
  }

  // ----- Whole runs -----

  // The slots that the run updates.
  ghost function Touched(p: Page, ops: seq<Op>): set<nat>
    requires WellFormed(p) && RunOk(p, ops)
    decreases |ops|
  {
    if ops == [] then {}
    else
      StepKeeps(p, ops[0]);
      (if Updates(p, ops[0]) then {ops[0].slot} else {}) + Touched(Done(p, ops[0]), ops[1..])
  }

  // The slots into which an update of the run writes an empty tuple.
  ghost function Emptied(p: Page, ops: seq<Op>): set<nat>
    requires WellFormed(p) && RunOk(p, ops)
    decreases |ops|
  {
    if ops == [] then {}
    else StepKeeps(p, ops[0]); EmptiedBy(p, ops[0]) + Emptied(Done(p, ops[0]), ops[1..])
  }

  ghost function DriftOf(p: Page, ops: seq<Op>, touched: set<nat>): Drift
    requires WellFormed(p) && RunOk(p, ops)
  {
    Drift(touched, Emptied(p, ops), Revived(p, ops))
  }

  // A tuple that is marked stays so and is not updated.
  lemma {:induction false} MarkedStays(p: Page, ops: seq<Op>, j: nat)
    requires WellFormed(p) && RunOk(p, ops) && j < |p.slots| && p.slots[j].size < 0
    ensures j !in Emptied(p, ops)
    decreases |ops|
  {
    if ops != [] {
      StepKeeps(p, ops[0]);
      assert Done(p, ops[0]).slots[j].size == p.slots[j].size;
      MarkedStays(Done(p, ops[0]), ops[1..], j);
    }
  }

  /** The operation can be undone after a run that empties the slots `emptied` and leaves
      `count` slots: a tuple it inserted is not emptied, and a delete names a slot. */
  ghost predicate AbortableStep(p: Page, op: Op, emptied: set<nat>, count: nat) {
    match op
    case InsertOp(t) => CanInsert(p, t) ==> FreeSlot(p.slots) !in emptied
    case DeleteOp(i) => i < count
    case UpdateOp(i, t) => true
  }

  ghost predicate Abortable(p: Page, ops: seq<Op>, count: nat)
    requires WellFormed(p) && RunOk(p, ops)
    decreases |ops|
  {
    ops != [] ==>
      (StepKeeps(p, ops[0]);
       && AbortableStep(p, ops[0], Emptied(Done(p, ops[0]), ops[1..]), count)
       && Abortable(Done(p, ops[0]), ops[1..], count))
  }

  /** A run can be undone if it writes no empty tuple and deletes from slots that exist at
      its end. */
  lemma {:induction false} PlainIsAbortable(p: Page, ops: seq<Op>, count: nat)
    requires WellFormed(p) && RunOk(p, ops)
    requires forall k :: 0 <= k < |ops| && ops[k].UpdateOp? ==> ops[k].tuple != []
    requires forall k :: 0 <= k < |ops| && ops[k].DeleteOp? ==> ops[k].slot < count
    ensures Emptied(p, ops) == {} && Abortable(p, ops, count)
    decreases |ops|
  {
    if ops != [] {
      StepKeeps(p, ops[0]);
      PlainIsAbortable(Done(p, ops[0]), ops[1..], count);
    }
  }

  lemma OneUndone(q: Page, log: seq<WriteRecord>)
    requires |log| == 1 && WellFormed(q) && WellFormed(Undone(q, log[0]))
    ensures Undoable(q, log) <==> log[0].Updating? || Works(q, log[0])
    ensures UndoneAll(q, log) == Undone(q, log[0])
  {
    assert log[..|log| - 1] == [];
    assert Undoable(Undone(q, log[0]), []);
  }

  lemma UndoStepLike(p: Page, op: Op, q: Page, d: Drift, d1: Drift)
    requires WellFormed(p) && StepOk(p, op) && Like(Done(p, op), q, d)
    requires Updates(p, op) ==> op.slot in d.touched
    requires op.DeleteOp? && op.slot < |p.slots| && p.slots[op.slot].size > 0 ==> op.slot !in d.gone
    requires d1 == d.(gone := d.gone + EmptiedBy(p, op), revived := d.revived + RevivedBy(p, op))
    ensures Undoable(q, Logged(p, op)) <==> AbortableStep(p, op, d.gone, |q.slots|)
    ensures AbortableStep(p, op, d.gone, |q.slots|) ==>
      Like(p, UndoneAll(q, Logged(p, op)), d1) && |UndoneAll(q, Logged(p, op)).slots| == |q.slots|
  {
    match op
    case InsertOp(t) => UndoInsertStep(p, t, q, d, d1);
    case DeleteOp(i) =>
      assert d1 == d.(revived := d.revived + RevivedBy(p, op));
      if i < |q.slots| { UndoDeleteLike(p, i, q, d); }
      OneUndone(q, Logged(p, op));
    case UpdateOp(i, t) =>
      assert d1 == d.(gone := d.gone + EmptiedBy(p, op));
      if Updates(p, op) {
        assert InPage(p, i);
        UndoUpdateStep(p, i, t, q, d);
        OneUndone(q, Logged(p, op));
      } else {
        assert d1 == d;
      }
  }

  lemma UndoInsertStep(p: Page, t: seq<byte>, q: Page, d: Drift, d1: Drift)
    requires WellFormed(p) && t != [] && Like(Done(p, InsertOp(t)), q, d)
    requires d1 == d.(gone := d.gone + EmptiedBy(p, InsertOp(t)), revived := d.revived + RevivedBy(p, InsertOp(t)))
    ensures var log := Logged(p, InsertOp(t));
      && (Undoable(q, log) <==> AbortableStep(p, InsertOp(t), d.gone, |q.slots|))
      && (Undoable(q, log) ==> Like(p, UndoneAll(q, log), d1) && |UndoneAll(q, log).slots| == |q.slots|)
  {
    assert d1 == d;
    if CanInsert(p, t) {
      var i := FreeSlot(p.slots);
      if i !in d.gone {
        UndoInsertLike(p, t, q, d);
      } else {
        assert LikeAt(Inserted(p, t), q, d, i);
      }
      OneUndone(q, Logged(p, InsertOp(t)));
    }
  }

  lemma {:induction false} UndoRunLike(p: Page, ops: seq<Op>, q: Page, touched: set<nat>)
    requires WellFormed(p) && RunOk(p, ops) && Touched(p, ops) <= touched
    requires Like(Final(p, ops), q, Drift(touched, {}, {}))
    ensures Undoable(q, WriteSet(p, ops)) <==> Abortable(p, ops, |q.slots|)
    ensures Abortable(p, ops, |q.slots|) ==>
      && Like(p, UndoneAll(q, WriteSet(p, ops)), DriftOf(p, ops, touched))
      && |UndoneAll(q, WriteSet(p, ops)).slots| == |q.slots|
    decreases |ops|
  {
    if ops != [] {
      var p1, rest, log := Done(p, ops[0]), ops[1..], Logged(p, ops[0]);
      StepKeeps(p, ops[0]);
      UndoRunLike(p1, rest, q, touched);
      UndoneConcat(q, log, WriteSet(p1, rest));
      UndoableConcat(q, log, WriteSet(p1, rest));
      if Abortable(p1, rest, |q.slots|) {
        UndoFirst(p, ops, UndoneAll(q, WriteSet(p1, rest)), touched);
      }
    }
  }

  lemma UndoFirst(p: Page, ops: seq<Op>, q: Page, touched: set<nat>)
    requires WellFormed(p) && RunOk(p, ops) && ops != [] && Touched(p, ops) <= touched
    requires WellFormed(Done(p, ops[0])) && Like(Done(p, ops[0]), q, DriftOf(Done(p, ops[0]), ops[1..], touched))
    ensures Undoable(q, Logged(p, ops[0])) <==> AbortableStep(p, ops[0], Emptied(Done(p, ops[0]), ops[1..]), |q.slots|)
    ensures Undoable(q, Logged(p, ops[0])) ==>
      && Like(p, UndoneAll(q, Logged(p, ops[0])), DriftOf(p, ops, touched))
      && |UndoneAll(q, Logged(p, ops[0])).slots| == |q.slots|
  {
    var op, p1 := ops[0], Done(p, ops[0]);
    var d, d1 := DriftOf(p1, ops[1..], touched), DriftOf(p, ops, touched);
    assert d1.gone == d.gone + EmptiedBy(p, op) && d1.revived == d.revived + RevivedBy(p, op);
    if op.DeleteOp? && op.slot < |p.slots| && p.slots[op.slot].size > 0 {
      MarkedStays(p1, ops[1..], op.slot);
    }
    UndoStepLike(p, op, q, d, d1);
  }

  // What slot `j` holds after the abort, given what it held before the run.
  ghost predicate SlotRestored(before: Item, after: Item, touched: bool, emptied: bool, revived: bool) {
    && (!touched ==> after == UnmarkedItem(before, revived))
    && (before.Empty? ==> after.Empty?)
    && (before.Live? ==> if emptied then after.Empty? else after.Live?)
    && (before.Marked? ==> if revived then after.Live? else after.Marked?)
  }

  /** Roomy or not, the write set of a run can be undone exactly when the run is abortable.
      Every slot that it did not update then holds what it held before, without the mark if
      a delete of the run was refused there; every other one is live, marked or empty as it
      was, but empty if it was emptied; and slots that the run added are empty. */
  lemma AbortRestoresOthers(p: Page, ops: seq<Op>)
    requires WellFormed(p) && RunOk(p, ops)
    ensures Undoable(Final(p, ops), WriteSet(p, ops)) <==> Abortable(p, ops, |Final(p, ops).slots|)
    ensures Abortable(p, ops, |Final(p, ops).slots|) ==>
      var q := UndoneAll(Final(p, ops), WriteSet(p, ops));
      && WellFormed(q) && |q.slots| == |Final(p, ops).slots| >= |p.slots|
      && (forall j :: 0 <= j < |p.slots| ==>
            SlotRestored(Items(p)[j], Items(q)[j], j in Touched(p, ops), j in Emptied(p, ops), j in Revived(p, ops)))
      && (forall j :: |p.slots| <= j < |q.slots| ==> Items(q)[j] == Empty)
  {
    var f, touched := Final(p, ops), Touched(p, ops);
    LikeItself(f, touched);
    UndoRunLike(p, ops, f, touched);
    if Abortable(p, ops, |f.slots|) {
      var q := UndoneAll(f, WriteSet(p, ops));
      LikeRestored(p, q, DriftOf(p, ops, touched));
    }
  }

  lemma LikeRestored(p: Page, q: Page, d: Drift)
    requires Like(p, q, d)
    ensures forall j :: 0 <= j < |p.slots| ==>
      SlotRestored(Items(p)[j], Items(q)[j], j in d.touched, j in d.gone, j in d.revived)
    ensures forall j :: |p.slots| <= j < |q.slots| ==> Items(q)[j] == Empty
  {
    forall j | 0 <= j < |p.slots|
      ensures SlotRestored(Items(p)[j], Items(q)[j], j in d.touched, j in d.gone, j in d.revived)
    {
      assert LikeAt(p, q, d, j);
    }
    forall j | |p.slots| <= j < |q.slots|
      ensures Items(q)[j] == Empty
    {
      assert q.slots[j].size == 0;
    }
  }

  // ----- Aborts that do not get through -----

  /** In an empty page, a delete of slot 0 is refused and cannot be undone; nor can an
      insert of a tuple that is emptied afterwards. */
  lemma AbortStops(p: Page, a: byte)
    requires p == Page([], [])
    ensures WellFormed(p) && RunOk(p, [DeleteOp(0)]) && !Undoable(Final(p, [DeleteOp(0)]), WriteSet(p, [DeleteOp(0)]))
    ensures var ops := [InsertOp([a]), UpdateOp(0, [])];
      RunOk(p, ops) && !Undoable(Final(p, ops), WriteSet(p, ops))
  {
    assert [DeleteOp(0)][1..] == [];
    assert RunOk(p, [DeleteOp(0)]) && !Abortable(p, [DeleteOp(0)], 0);
    AbortRestoresOthers(p, [DeleteOp(0)]);
    InsertAndEmpty(p, a);
    AbortRestoresOthers(p, [InsertOp([a]), UpdateOp(0, [])]);
  }

  lemma InsertAndEmpty(p: Page, a: byte)
    requires p == Page([], []) && WellFormed(p)
    ensures var ops := [InsertOp([a]), UpdateOp(0, [])];
      RunOk(p, ops) && !Abortable(p, ops, |Final(p, ops).slots|)
  {
    var op1, op2 := InsertOp([a]), UpdateOp(0, []);
    assert [op1, op2][1..] == [op2] && [op2][1..] == [];
    var p1 := Done(p, op1);
    StepKeeps(p, op1);
    assert FreeSlot(p.slots) == 0 && [a] + p.tuples == [a];
    assert p1 == Page([Slot(511, 1)], [a]);
    assert Room(p1) >= -1 && Updates(p1, op2) && SafeUpdate(p1, 0, []);
    StepKeeps(p1, op2);
    var p2 := Done(p1, op2);
    assert RunOk(p2, []) && RunOk(p1, [op2]);
    assert EmptiedBy(p1, op2) == {0} && Emptied(p1, [op2]) == EmptiedBy(p1, op2) + Emptied(p2, []);
  }
}
