/**
 Aborting a transaction: the write set of its inserts, deletes and updates of a page is
 undone from the back.  Every undo step has its effect exactly when the run was roomy,
 and then every slot is restored but those whose refused delete takes an old mark back.
 */
module TableRollback {
  import opened Bytes
  import opened TablePageLayout
  import opened TablePageOperations

  datatype Op = InsertOp(tuple: seq<byte>) | DeleteOp(slot: nat) | UpdateOp(slot: nat, tuple: seq<byte>)

  // An entry of the write set.
  datatype WriteRecord = Inserting(slot: nat) | Deleting(slot: nat) | Updating(slot: nat, old_: seq<byte>)

  // ----- Running operations -----

  ghost predicate Updates(p: Page, op: Op) {
    op.UpdateOp? && op.slot < |p.slots| && CanUpdate(p, op.slot, op.tuple)
  }

  // A delete that the page turns down, because the tuple is marked already.
  ghost predicate Refused(p: Page, op: Op) {
    op.DeleteOp? && op.slot < |p.slots| && p.slots[op.slot].size < 0
  }

  /** Tuples to insert are not empty, and updates keep the page well formed. */
  ghost predicate StepOk(p: Page, op: Op) {
    match op
    case InsertOp(t) => t != []
    case DeleteOp(i) => true
    case UpdateOp(i, t) => Updates(p, op) ==> SafeUpdate(p, i, t)
  }

  ghost function Done(p: Page, op: Op): Page
    requires WellFormed(p)
  {
    match op
    case InsertOp(t) => if CanInsert(p, t) then Inserted(p, t) else p
    case DeleteOp(i) => if i < |p.slots| && p.slots[i].size > 0 then Flipped(p, i) else p
    case UpdateOp(i, t) => if Updates(p, op) then assert InPage(p, i); Updated(p, i, t) else p
  }

  // What the operation adds to the write set; a delete is there even if the page refused it.
  ghost function Logged(p: Page, op: Op): seq<WriteRecord>
    requires WellFormed(p)
  {
    match op
    case InsertOp(t) => if CanInsert(p, t) then [Inserting(FreeSlot(p.slots))] else []
    case DeleteOp(i) => [Deleting(i)]
    case UpdateOp(i, t) => if Updates(p, op) then assert InPage(p, i); [Updating(i, BytesAt(p, p.slots[i]))] else []
  }

  lemma StepKeeps(p: Page, op: Op)
    requires WellFormed(p) && StepOk(p, op)
    ensures WellFormed(Done(p, op))
  {
    match op
    case InsertOp(t) => if CanInsert(p, t) { InsertRefines(p, t); }
    case DeleteOp(i) => if i < |p.slots| && p.slots[i].size > 0 { FlipRefines(p, i); }
    case UpdateOp(i, t) => if Updates(p, op) { assert InPage(p, i); UpdateRefines(p, i, t); }
  }

  ghost predicate RunOk(p: Page, ops: seq<Op>)
    requires WellFormed(p)
    decreases |ops|
  {
    ops != [] ==> StepOk(p, ops[0]) && (StepKeeps(p, ops[0]); RunOk(Done(p, ops[0]), ops[1..]))
  }

  ghost function Final(p: Page, ops: seq<Op>): (q: Page)
    requires WellFormed(p) && RunOk(p, ops)
    ensures WellFormed(q)
    decreases |ops|
  {
    if ops == [] then p else StepKeeps(p, ops[0]); Final(Done(p, ops[0]), ops[1..])
  }

  ghost function WriteSet(p: Page, ops: seq<Op>): seq<WriteRecord>
    requires WellFormed(p) && RunOk(p, ops)
    decreases |ops|
  {
    if ops == [] then [] else StepKeeps(p, ops[0]); Logged(p, ops[0]) + WriteSet(Done(p, ops[0]), ops[1..])
  }

  // The slots of the run's refused deletes.
  ghost function Revived(p: Page, ops: seq<Op>): set<nat>
    requires WellFormed(p) && RunOk(p, ops)
    decreases |ops|
  {
    if ops == [] then {}
    else StepKeeps(p, ops[0]); RevivedBy(p, ops[0]) + Revived(Done(p, ops[0]), ops[1..])
  }

  ghost function RevivedBy(p: Page, op: Op): set<nat> {
    if Refused(p, op) then {op.slot} else {}
  }

  // ----- Undoing -----

  // The undo step has its effect: the operation it calls does not turn it down.
  ghost predicate Works(q: Page, w: WriteRecord) {
    && w.slot < |q.slots|
    && InPage(q, w.slot)
    && match w
       case Inserting(i) => q.slots[i].size != 0
       case Deleting(i) => true
       case Updating(i, b) => CanUpdate(q, i, b)
  }

  ghost function Undone(q: Page, w: WriteRecord): Page {
    if !Works(q, w) then q
    else
      match w
      case Inserting(i) => Purged(q, i)
      case Deleting(i) => if q.slots[i].size < 0 then Flipped(q, i) else q
      case Updating(i, b) => Updated(q, i, b)
  }

  ghost function UndoneAll(q: Page, ws: seq<WriteRecord>): Page
    decreases |ws|
  {
    if ws == [] then q else UndoneAll(Undone(q, ws[|ws| - 1]), ws[..|ws| - 1])
  }

  ghost predicate AllWork(q: Page, ws: seq<WriteRecord>)
    decreases |ws|
  {
    ws == [] || (Works(q, ws[|ws| - 1]) && AllWork(Undone(q, ws[|ws| - 1]), ws[..|ws| - 1]))
  }

  lemma {:induction false} UndoneConcat(q: Page, a: seq<WriteRecord>, b: seq<WriteRecord>)
    ensures UndoneAll(q, a + b) == UndoneAll(UndoneAll(q, b), a)
    ensures AllWork(q, a + b) <==> AllWork(q, b) && AllWork(UndoneAll(q, b), a)
    decreases |b|
  {
    if b == [] {
      assert a + b == a;
    } else {
      var w := b[|b| - 1];
      assert (a + b)[..|a + b| - 1] == a + b[..|b| - 1];
      UndoneConcat(Undone(q, w), a, b[..|b| - 1]);
    }
  }

  // ----- The page up to slots that were added and marks that were taken back -----

  ghost predicate SameSlot(s: Slot, s': Slot) {
    s == s' || (s.size == 0 && s'.size == 0)
  }

  function Unmarked(s: Slot, revived: bool): Slot {
    if revived && s.size < 0 then Slot(s.offset, -s.size) else s
  }

  function UnmarkedItem(item: Item, revived: bool): Item {
    if revived && item.Marked? then Live(item.bytes) else item
  }

  // `q` is `p` without the marks of the slots `revived`, and with more empty slots.
  ghost predicate Padded(p: Page, q: Page, revived: set<nat>) {
    && q.tuples == p.tuples
    && |q.slots| >= |p.slots|
    && (forall j {:trigger q.slots[j]} :: 0 <= j < |p.slots| ==> SameSlot(Unmarked(p.slots[j], j in revived), q.slots[j]))
    && (forall j {:trigger q.slots[j]} :: |p.slots| <= j < |q.slots| ==> q.slots[j].size == 0)
  }

  lemma UndoInsert(p: Page, t: seq<byte>, q: Page, revived: set<nat>)
    requires WellFormed(p) && t != [] && CanInsert(p, t) && Padded(Inserted(p, t), q, revived)
    ensures var w := Inserting(FreeSlot(p.slots)); Works(q, w) && Padded(p, Undone(q, w), revived)
    ensures |Undone(q, Inserting(FreeSlot(p.slots))).slots| == |q.slots|
  {
    var i, p' := FreeSlot(p.slots), Inserted(p, t);
    assert p'.slots[i] == Slot(FreePointer(p) - |t|, |t|) && SameSlot(p'.slots[i], q.slots[i]);
    assert InPage(q, i);
    var q' := Purged(q, i);
    assert q'.tuples == p.tuples;
    forall j | 0 <= j < |p.slots|
      ensures SameSlot(Unmarked(p.slots[j], j in revived), q'.slots[j])
    {
      assert InPage(p, j);
      assert j != i ==> p'.slots[j] == p.slots[j];
      assert SameSlot(Unmarked(p'.slots[j], j in revived), q.slots[j]);
    }
    forall j | |p.slots| <= j < |q'.slots|
      ensures q'.slots[j].size == 0
    {
      assert j != i ==> q.slots[j].size == 0;
    }
  }

  lemma UndoDelete(p: Page, i: nat, q: Page, revived: set<nat>)
    requires WellFormed(p) && Padded(Done(p, DeleteOp(i)), q, revived)
    ensures Works(q, Deleting(i)) <==> i < |q.slots|
    ensures Padded(p, Undone(q, Deleting(i)), revived + RevivedBy(p, DeleteOp(i)))
    ensures |Undone(q, Deleting(i)).slots| == |q.slots|
  {
    var p', r' := Done(p, DeleteOp(i)), revived + RevivedBy(p, DeleteOp(i));
    if i < |p.slots| {
      assert InPage(p, i) && SameSlot(Unmarked(p'.slots[i], i in revived), q.slots[i]);
    } else if i < |q.slots| {
      assert q.slots[i].size == 0;
    }
    var q' := Undone(q, Deleting(i));
    forall j | 0 <= j < |p.slots|
      ensures SameSlot(Unmarked(p.slots[j], j in r'), q'.slots[j])
    {
      assert SameSlot(Unmarked(p'.slots[j], j in revived), q.slots[j]);
    }
    forall j | |p.slots| <= j < |q'.slots|
      ensures q'.slots[j].size == 0
    {
      assert q.slots[j].size == 0;
    }
  }

  // The room an undone update needs is the room there was before it.
  lemma UpdateRoom(p: Page, i: nat, t: seq<byte>, q: Page, revived: set<nat>)
    requires WellFormed(p) && i < |p.slots| && InPage(p, i) && CanUpdate(p, i, t) && Padded(Updated(p, i, t), q, revived)
    ensures Works(q, Updating(i, BytesAt(p, p.slots[i]))) <==> t != [] && FreePointer(p) >= HEADER + 8 * |q.slots|
  {
    var p' := Updated(p, i, t);
    assert SameSlot(p'.slots[i], q.slots[i]);
    if t != [] {
      assert InPage(q, i);
    }
  }

  lemma UndoUpdate(p: Page, i: nat, t: seq<byte>, q: Page, revived: set<nat>)
    requires WellFormed(p) && i < |p.slots| && InPage(p, i) && CanUpdate(p, i, t) && SafeUpdate(p, i, t) && t != []
    requires Padded(Updated(p, i, t), q, revived)
    requires Works(q, Updating(i, BytesAt(p, p.slots[i])))
    ensures Padded(p, Undone(q, Updating(i, BytesAt(p, p.slots[i]))), revived)
    ensures |Undone(q, Updating(i, BytesAt(p, p.slots[i]))).slots| == |q.slots|
  {
    var p', b := Updated(p, i, t), BytesAt(p, p.slots[i]);
    assert SameSlot(p'.slots[i], q.slots[i]);
    var q' := Updated(q, i, b);
    UpdatedBack(p, i, t, q);
    forall j | 0 <= j < |p.slots|
      ensures SameSlot(Unmarked(p.slots[j], j in revived), q'.slots[j])
    {
      UndoUpdateSlot(p, i, t, q, revived, j);
    }
    forall j | |p.slots| <= j < |q'.slots|
      ensures q'.slots[j].size == 0
    {
      assert q.slots[j].size == 0;
    }
  }

  // Writing the old tuple over the new one gives the old bytes,
  lemma UpdatedBack(p: Page, i: nat, t: seq<byte>, q: Page)
    requires i < |p.slots| && InPage(p, i) && p.slots[i].size > 0 && t != []
    requires q.tuples == Updated(p, i, t).tuples && i < |q.slots| && q.slots[i] == Updated(p, i, t).slots[i] && InPage(q, i)
    ensures Updated(q, i, BytesAt(p, p.slots[i])).tuples == p.tuples
  {
  }

  // and moves every other slot back.
  lemma UndoUpdateSlot(p: Page, i: nat, t: seq<byte>, q: Page, revived: set<nat>, j: nat)
    requires WellFormed(p) && i < |p.slots| && InPage(p, i) && CanUpdate(p, i, t) && SafeUpdate(p, i, t) && t != []
    requires Padded(Updated(p, i, t), q, revived) && InPage(q, i) && j < |p.slots|
    ensures q.slots[i].size > 0
    ensures SameSlot(Unmarked(p.slots[j], j in revived), Updated(q, i, BytesAt(p, p.slots[i])).slots[j])
  {
    var p' := Updated(p, i, t);
    assert SameSlot(p'.slots[i], q.slots[i]) && SameSlot(Unmarked(p'.slots[j], j in revived), q.slots[j]);
    assert Apart(p, i, j);
    assert !MarkedBelow(p, i, j) || |t| == p.slots[i].size;
  }

  // ----- Whole runs -----

  /** The operation, with `count` slots in the page when it is undone: a delete names one
      of them, and an update wrote a tuple that is not empty at a time when that many
      slots would not have reached the tuples. */
  ghost predicate RoomyStep(p: Page, op: Op, count: nat) {
    match op
    case InsertOp(t) => true
    case DeleteOp(i) => i < count
    case UpdateOp(i, t) => Updates(p, op) ==> t != [] && FreePointer(p) >= HEADER + 8 * count
  }

  ghost predicate Roomy(p: Page, ops: seq<Op>, count: nat)
    requires WellFormed(p) && RunOk(p, ops)
    decreases |ops|
  {
    ops != [] ==> RoomyStep(p, ops[0], count) && (StepKeeps(p, ops[0]); Roomy(Done(p, ops[0]), ops[1..], count))
  }

  lemma UndoStep(p: Page, op: Op, q: Page, revived: set<nat>)
    requires WellFormed(p) && StepOk(p, op) && Padded(Done(p, op), q, revived)
    ensures AllWork(q, Logged(p, op)) <==> RoomyStep(p, op, |q.slots|)
    ensures RoomyStep(p, op, |q.slots|) ==>
      && Padded(p, UndoneAll(q, Logged(p, op)), revived + RevivedBy(p, op))
      && |UndoneAll(q, Logged(p, op)).slots| == |q.slots|
  {
    match op
    case InsertOp(t) => if CanInsert(p, t) { UndoInsert(p, t, q, revived); }
    case DeleteOp(i) => UndoDelete(p, i, q, revived);
    case UpdateOp(i, t) =>
      if Updates(p, op) {
        assert InPage(p, i);
        UpdateRoom(p, i, t, q, revived);
        if RoomyStep(p, op, |q.slots|) { UndoUpdate(p, i, t, q, revived); }
      }
  }

  lemma {:induction false} UndoRun(p: Page, ops: seq<Op>, q: Page)
    requires WellFormed(p) && RunOk(p, ops) && Padded(Final(p, ops), q, {})
    ensures AllWork(q, WriteSet(p, ops)) <==> Roomy(p, ops, |q.slots|)
    ensures Roomy(p, ops, |q.slots|) ==>
      && Padded(p, UndoneAll(q, WriteSet(p, ops)), Revived(p, ops))
      && |UndoneAll(q, WriteSet(p, ops)).slots| == |q.slots|
    decreases |ops|
  {
    if ops != [] {
      var p1, rest, log := Done(p, ops[0]), ops[1..], Logged(p, ops[0]);
      StepKeeps(p, ops[0]);
      UndoRun(p1, rest, q);
      UndoneConcat(q, log, WriteSet(p1, rest));
      if Roomy(p1, rest, |q.slots|) {
        UndoStep(p, ops[0], UndoneAll(q, WriteSet(p1, rest)), Revived(p1, rest));
        assert Revived(p1, rest) + RevivedBy(p, ops[0]) == Revived(p, ops);
      }
    }
  }

  // Under a roomy run the slots of the final page fit the first one too.
  lemma {:induction false} RoomyStart(p: Page, ops: seq<Op>)
    requires WellFormed(p) && RunOk(p, ops) && Roomy(p, ops, |Final(p, ops).slots|)
    ensures FreePointer(p) >= HEADER + 8 * |Final(p, ops).slots|
    decreases |ops|
  {
    if ops != [] {
      StepKeeps(p, ops[0]);
      RoomyStart(Done(p, ops[0]), ops[1..]);
    }
  }

  lemma {:induction false} SlotsStay(p: Page, ops: seq<Op>)
    requires WellFormed(p) && RunOk(p, ops)
    ensures |Final(p, ops).slots| >= |p.slots|
    decreases |ops|
  {
    if ops != [] {
      StepKeeps(p, ops[0]);
      SlotsStay(Done(p, ops[0]), ops[1..]);
    }
  }

  /** A run that adds no slot is roomy, if it writes no empty tuple and deletes from slots
      of the page only. */
  lemma {:induction false} RoomyWithoutNewSlots(p: Page, ops: seq<Op>)
    requires WellFormed(p) && RunOk(p, ops) && |Final(p, ops).slots| == |p.slots|
    requires forall k :: 0 <= k < |ops| && ops[k].UpdateOp? ==> ops[k].tuple != []
    requires forall k :: 0 <= k < |ops| && ops[k].DeleteOp? ==> ops[k].slot < |p.slots|
    ensures Roomy(p, ops, |p.slots|)
    decreases |ops|
  {
    if ops != [] {
      StepKeeps(p, ops[0]);
      SlotsStay(Done(p, ops[0]), ops[1..]);
      RoomyWithoutNewSlots(Done(p, ops[0]), ops[1..]);
    }
  }

  lemma PaddedKeeps(p: Page, q: Page, revived: set<nat>)
    requires WellFormed(p) && Padded(p, q, revived) && Room(q) >= 0
    ensures WellFormed(q)
  {
    PaddedTotal(p.slots, q.slots);
    forall j | 0 <= j < |q.slots|
      ensures InPage(q, j)
    {
      if j < |p.slots| { assert InPage(p, j) && SameSlot(Unmarked(p.slots[j], j in revived), q.slots[j]); }
    }
    forall j, k | 0 <= j < |q.slots| && 0 <= k < |q.slots|
      ensures Apart(q, j, k)
    {
      if j < |p.slots| && k < |p.slots| {
        assert Apart(p, j, k);
        assert SameSlot(Unmarked(p.slots[j], j in revived), q.slots[j]) && SameSlot(Unmarked(p.slots[k], k in revived), q.slots[k]);
      }
    }
    forall x | FreePointer(q) <= x < PAGE_SIZE
      ensures Covered(q, x)
    {
      assert Covered(p, x);
      var j :| Holds(p, j, x);
      assert SameSlot(Unmarked(p.slots[j], j in revived), q.slots[j]);
      assert Holds(q, j, x);
    }
  }

  lemma PaddedItems(p: Page, q: Page, revived: set<nat>)
    requires WellFormed(p) && WellFormed(q) && Padded(p, q, revived)
    ensures forall j :: 0 <= j < |q.slots| ==>
      Items(q)[j] == if j < |p.slots| then UnmarkedItem(Items(p)[j], j in revived) else Empty
  {
    forall j | 0 <= j < |q.slots|
      ensures Items(q)[j] == if j < |p.slots| then UnmarkedItem(Items(p)[j], j in revived) else Empty
    {
      assert InPage(q, j);
      if j < |p.slots| { assert InPage(p, j) && SameSlot(Unmarked(p.slots[j], j in revived), q.slots[j]); }
    }
  }

  lemma {:induction false} PaddedTotal(a: seq<Slot>, b: seq<Slot>)
    requires |a| <= |b|
    requires forall j {:trigger b[j]} :: 0 <= j < |a| ==> Len(a[j]) == Len(b[j])
    requires forall j {:trigger b[j]} :: |a| <= j < |b| ==> b[j].size == 0
    ensures Total(a) == Total(b)
  {
    if b != [] {
      if a == [] { PaddedTotal([], b[1..]); } else { PaddedTotal(a[1..], b[1..]); }
    }
  }

  /** Aborting right after a run works step by step if and only if the run is roomy.  Then
      every slot holds what it held before the run, except that a tuple whose delete was
      refused has lost its mark; slots that the run added are empty and stay. */
  lemma AbortRestores(p: Page, ops: seq<Op>)
    requires WellFormed(p) && RunOk(p, ops)
    ensures AllWork(Final(p, ops), WriteSet(p, ops)) <==> Roomy(p, ops, |Final(p, ops).slots|)
    ensures Roomy(p, ops, |Final(p, ops).slots|) ==>
      var q := UndoneAll(Final(p, ops), WriteSet(p, ops));
      && WellFormed(q) && q.tuples == p.tuples && |q.slots| == |Final(p, ops).slots| >= |p.slots|
      && forall j :: 0 <= j < |q.slots| ==>
           Items(q)[j] == if j < |p.slots| then UnmarkedItem(Items(p)[j], j in Revived(p, ops)) else Empty
  {
    var f := Final(p, ops);
    UndoRun(p, ops, f);
    if Roomy(p, ops, |f.slots|) {
      var q := UndoneAll(f, WriteSet(p, ops));
      RoomyStart(p, ops);
      PaddedKeeps(p, q, Revived(p, ops));
      PaddedItems(p, q, Revived(p, ops));
    }
  }

  /** An abort that works step by step restores all slots exactly when no delete of the run
      named a tuple that was marked before the run. */
  lemma AbortRestoresIff(p: Page, ops: seq<Op>)
    requires WellFormed(p) && RunOk(p, ops) && Roomy(p, ops, |Final(p, ops).slots|)
    ensures var q := UndoneAll(Final(p, ops), WriteSet(p, ops));
      && WellFormed(q) && |q.slots| >= |p.slots|
      && (Items(q)[..|p.slots|] == Items(p) <==>
          forall j :: 0 <= j < |p.slots| && Items(p)[j].Marked? ==> DeleteOp(j) !in ops)
  {
    AbortRestores(p, ops);
    var q := UndoneAll(Final(p, ops), WriteSet(p, ops));
    forall j | 0 <= j < |p.slots|
      ensures Items(q)[j] == Items(p)[j] <==> Items(p)[j].Marked? ==> DeleteOp(j) !in ops
    {
      assert InPage(p, j);
      if p.slots[j].size < 0 { RevivedIff(p, ops, j); }
    }
    assert forall j :: 0 <= j < |p.slots| ==> Items(q)[..|p.slots|][j] == Items(q)[j];
  }

  // A marked tuple stays marked through the run, so that every delete of it is refused.
  lemma {:induction false} RevivedIff(p: Page, ops: seq<Op>, j: nat)
    requires WellFormed(p) && RunOk(p, ops) && j < |p.slots| && p.slots[j].size < 0
    ensures j in Revived(p, ops) <==> DeleteOp(j) in ops
    decreases |ops|
  {
    if ops != [] {
      StepKeeps(p, ops[0]);
      assert Done(p, ops[0]).slots[j].size == p.slots[j].size;
      RevivedIff(Done(p, ops[0]), ops[1..], j);
      assert ops == [ops[0]] + ops[1..];
    }
  }

  // ----- What a delete and its undo do to the items -----

  function MarkedItem(item: Item): Item {
    if item.Live? then Marked(item.bytes) else item
  }

  /** A delete marks a live tuple and changes nothing else. */
  lemma DeleteItems(p: Page, i: nat)
    requires WellFormed(p)
    ensures WellFormed(Done(p, DeleteOp(i)))
    ensures Items(Done(p, DeleteOp(i))) == if i < |p.slots| then Items(p)[i := MarkedItem(Items(p)[i])] else Items(p)
  {
    if i < |p.slots| {
      assert InPage(p, i);
      FlipRefines(p, i);
      assert p.slots[i].size <= 0 ==> Items(p)[i := MarkedItem(Items(p)[i])] == Items(p);
    }
  }

  /** Undoing it takes the mark back and changes nothing else. */
  lemma UndeleteItems(p: Page, i: nat)
    requires WellFormed(p) && i < |p.slots|
    ensures WellFormed(Undone(p, Deleting(i)))
    ensures Items(Undone(p, Deleting(i))) == Items(p)[i := UnmarkedItem(Items(p)[i], true)]
  {
    assert InPage(p, i);
    FlipRefines(p, i);
    assert p.slots[i].size >= 0 ==> Items(p)[i := UnmarkedItem(Items(p)[i], true)] == Items(p);
  }

  // Every undo step meets a well-formed page, and a slot that it may name.
  ghost predicate Undoable(q: Page, ws: seq<WriteRecord>)
    decreases |ws|
  {
    && WellFormed(q)
    && (ws != [] ==>
          && (ws[|ws| - 1].Updating? || Works(q, ws[|ws| - 1]))
          && Undoable(Undone(q, ws[|ws| - 1]), ws[..|ws| - 1]))
  }

  lemma {:induction false} UndoableConcat(q: Page, a: seq<WriteRecord>, b: seq<WriteRecord>)
    ensures Undoable(q, a + b) <==> Undoable(q, b) && Undoable(UndoneAll(q, b), a)
    decreases |b|
  {
    if b == [] {
      assert a + b == a;
    } else {
      assert (a + b)[..|a + b| - 1] == a + b[..|b| - 1];
      UndoableConcat(Undone(q, b[|b| - 1]), a, b[..|b| - 1]);
    }
  }

  // ----- Aborts that do not restore -----

  lemma LonePage(at: nat, a: seq<byte>)
    requires |a| > 0 && at + |a| == PAGE_SIZE && at >= HEADER + 8
    ensures WellFormed(Page([Slot(at, |a|)], a))
  {
    var p := Page([Slot(at, |a|)], a);
    assert p.slots[1..] == [];
    forall x | FreePointer(p) <= x < PAGE_SIZE
      ensures Covered(p, x)
    {
      assert Holds(p, 0, x);
    }
  }

  // The run, step by step, and its write set.
  lemma CutAndInsert(a: seq<byte>, b: seq<byte>, c: seq<byte>)
    requires |a| == 480 && |b| == 464 && |c| == 8
    ensures var p, ops := Page([Slot(32, 480)], a), [UpdateOp(0, b), InsertOp(c)];
      && WellFormed(p) && RunOk(p, ops)
      && Final(p, ops) == Page([Slot(48, 464), Slot(40, 8)], c + b)
      && WriteSet(p, ops) == [Updating(0, a), Inserting(1)]
      && !Roomy(p, ops, 2)
  {
    LonePage(32, a);
    var p, op1, op2 := Page([Slot(32, 480)], a), UpdateOp(0, b), InsertOp(c);
    assert InPage(p, 0);
    var p1 := Done(p, op1);
    assert p1 == Page([Slot(48, 464)], b);
    StepKeeps(p, op1);
    assert FreeSlot(p1.slots) == 1;
    StepKeeps(p1, op2);
    assert [op1, op2][1..] == [op2] && [op2][1..] == [];
    var p2 := Done(p1, op2);
    assert p2 == Page([Slot(48, 464), Slot(40, 8)], c + b);
    assert RunOk(p2, []) && Final(p2, []) == p2;
    assert RunOk(p1, [op2]) && WriteSet(p1, [op2]) == [Inserting(1)] && Final(p1, [op2]) == p2;
    assert BytesAt(p, p.slots[0]) == a;
  }

  /** A tuple fills the page; it is cut by 16 bytes, and 8 bytes more are inserted with a
      new slot.  The slot stays when the insert is undone, so that the long tuple no
      longer fits, and the abort leaves the short one. */
  lemma AbortLosesUpdate(a: seq<byte>, b: seq<byte>, c: seq<byte>)
    requires |a| == 480 && |b| == 464 && |c| == 8
    ensures var p, ops := Page([Slot(32, 480)], a), [UpdateOp(0, b), InsertOp(c)];
      && WellFormed(p) && RunOk(p, ops)
      && UndoneAll(Final(p, ops), WriteSet(p, ops)) == Page([Slot(48, 464), Slot(0, 0)], b)
  {
    CutAndInsert(a, b, c);
    var p2, w1, w2 := Page([Slot(48, 464), Slot(40, 8)], c + b), Updating(0, a), Inserting(1);
    var q1 := Undone(p2, w2);
    assert q1 == Page([Slot(48, 464), Slot(0, 0)], b) by { assert (c + b)[..0] + (c + b)[8..] == b; }
    assert [w1, w2][..1] == [w1] && [w1][..0] == [];
    assert UndoneAll(p2, [w1, w2]) == UndoneAll(q1, [w1]);
    assert !Works(q1, w1);
  }

  /** Undoing a delete finds its slot and restores the page exactly when the page did not
      refuse the delete: the write set has an entry even for a tuple that was marked
      before and for a slot that is not there. */
  lemma UndoDeleteIff(p: Page, i: nat)
    requires WellFormed(p)
    ensures var p', log := Done(p, DeleteOp(i)), Logged(p, DeleteOp(i));
      Undoable(p', log) && UndoneAll(p', log) == p <==> i < |p.slots| && p.slots[i].size >= 0
  {
    var p' := Done(p, DeleteOp(i));
    assert [Deleting(i)][..0] == [];
    assert UndoneAll(p', [Deleting(i)]) == Undone(p', Deleting(i));
    if i >= |p.slots| {
      assert !Works(p', Deleting(i));
    } else {
      assert InPage(p, i);
      FlipKeeps(p, i);
    }
    if i < |p.slots| && p.slots[i].size > 0 {
      assert p'.slots[i].size < 0;
      assert Undone(p', Deleting(i)).slots == p.slots;
    }
  }

  // In a page with a marked tuple, a second delete of it and an abort bring it back.
  lemma UndoDeleteRevives()
    ensures WellFormed(MarkedPair()) && Items(MarkedPair()) == [Live([8]), Marked([7])]
    ensures var q := UndoneAll(Done(MarkedPair(), DeleteOp(1)), Logged(MarkedPair(), DeleteOp(1)));
      WellFormed(q) && Items(q) == [Live([8]), Live([7])]
  {
    MarkedPairHolds();
    var p := MarkedPair();
    FlipRefines(p, 1);
    assert InPage(p, 1);
    assert [Deleting(1)][..0] == [];
    assert UndoneAll(p, [Deleting(1)]) == Undone(p, Deleting(1)) == Flipped(p, 1);
  }

  // One more operation in front of a run.
  lemma RunFirst(p: Page, op: Op, rest: seq<Op>, count: nat)
    requires WellFormed(p) && StepOk(p, op) && WellFormed(Done(p, op)) && RunOk(Done(p, op), rest)
    ensures RunOk(p, [op] + rest) && Final(p, [op] + rest) == Final(Done(p, op), rest)
    ensures WriteSet(p, [op] + rest) == Logged(p, op) + WriteSet(Done(p, op), rest)
    ensures Roomy(p, [op] + rest, count) ==> Roomy(Done(p, op), rest, count)
  {
    assert ([op] + rest)[1..] == rest;
  }

  // The run grows a tuple, cuts it, and inserts another one with a new slot.
  lemma GrowCutInsert(a: seq<byte>, b: seq<byte>, c: seq<byte>, d: seq<byte>)
    requires |a| == 464 && |b| == 480 && |c| == 464 && |d| == 8
    ensures var p, ops := Page([Slot(48, 464)], a), [UpdateOp(0, b), UpdateOp(0, c), InsertOp(d)];
      && WellFormed(p) && RunOk(p, ops) && !Roomy(p, ops, 2)
      && Final(p, ops) == Page([Slot(48, 464), Slot(40, 8)], d + c)
      && WriteSet(p, ops) == [Updating(0, a), Updating(0, b), Inserting(1)]
  {
    var p, op := Page([Slot(48, 464)], a), UpdateOp(0, b);
    LonePage(48, a);
    assert InPage(p, 0);
    var p1 := Done(p, op);
    assert p1 == Page([Slot(32, 480)], b);
    StepKeeps(p, op);
    CutAndInsert(b, c, d);
    RunFirst(p, op, [UpdateOp(0, c), InsertOp(d)], 2);
    assert [op, UpdateOp(0, c), InsertOp(d)] == [op] + [UpdateOp(0, c), InsertOp(d)];
    assert BytesAt(p, p.slots[0]) == a;
  }

  /** A run need not be roomy to be restored: here the cut cannot be undone, and undoing
      the growth gives the first tuple back. */
  lemma RestoredThoughNotRoomy(a: seq<byte>, b: seq<byte>, c: seq<byte>, d: seq<byte>)
    requires |a| == 464 && |b| == 480 && |c| == 464 && |d| == 8
    ensures var p, ops := Page([Slot(48, 464)], a), [UpdateOp(0, b), UpdateOp(0, c), InsertOp(d)];
      && WellFormed(p) && RunOk(p, ops) && !Roomy(p, ops, |Final(p, ops).slots|)
      && UndoneAll(Final(p, ops), WriteSet(p, ops)) == Page([Slot(48, 464), Slot(0, 0)], a)
  {
    GrowCutInsert(a, b, c, d);
    var w1, w2, w3 := Updating(0, a), Updating(0, b), Inserting(1);
    var p3 := Page([Slot(48, 464), Slot(40, 8)], d + c);
    var q := Undone(p3, w3);
    assert q == Page([Slot(48, 464), Slot(0, 0)], c) by { assert (d + c)[..0] + (d + c)[8..] == c; }
    assert [w1, w2, w3][..2] == [w1, w2] && [w1, w2][..1] == [w1] && [w1][..0] == [];
    assert UndoneAll(p3, [w1, w2, w3]) == UndoneAll(q, [w1, w2]);
    assert !Works(q, w2);
    assert UndoneAll(q, [w1, w2]) == UndoneAll(q, [w1]) == Undone(q, w1);
    assert c[..0] + a + c[464..] == a;
  }
}
