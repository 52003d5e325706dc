/**
 The operations of a table page on its value, what each does to the items of the page,
 and the condition under which an update keeps the page well formed.
 */
module TablePageOperations {
  import opened Bytes
  import opened TablePageLayout

  // ----- Insert -----

  // The first empty slot, or the number of slots.
  function FreeSlot(slots: seq<Slot>): (i: nat)
    ensures i <= |slots|
    ensures i < |slots| ==> slots[i].size == 0
    ensures forall j :: 0 <= j < i ==> slots[j].size != 0
  {
    if slots == [] || slots[0].size == 0 then 0 else FreeSlot(slots[1..]) + 1
  }

  predicate CanInsert(p: Page, t: seq<byte>) {
    Room(p) >= |t| && (FreeSlot(p.slots) < |p.slots| || Room(p) >= |t| + 8)
  }

  function Inserted(p: Page, t: seq<byte>): Page {
    InsertedAt(p, FreeSlot(p.slots), t)
  }

  function InsertedAt(p: Page, i: nat, t: seq<byte>): Page {
    var s := Slot(FreePointer(p) - |t|, |t|);
    Page(if i < |p.slots| then p.slots[i := s] else p.slots + [s], t + p.tuples)
  }

  /** An insert puts the tuple in the first empty slot or in a new one, and changes
      nothing else. */
  lemma InsertRefines(p: Page, t: seq<byte>)
    requires WellFormed(p) && t != [] && CanInsert(p, t)
    ensures WellFormed(Inserted(p, t))
    ensures var i := FreeSlot(p.slots);
      Items(Inserted(p, t)) == if i < |p.slots| then Items(p)[i := Live(t)] else Items(p) + [Live(t)]
  {
    var i, p' := FreeSlot(p.slots), Inserted(p, t);
    InsertSpliced(p, t);
    SpliceKeeps(p, p', i, FreePointer(p), 0, t);
    SpliceItems(p, p', i, FreePointer(p), 0, t);
  }

  lemma InsertSpliced(p: Page, t: seq<byte>)
    requires WellFormed(p)
    ensures Spliced(p, Inserted(p, t), FreeSlot(p.slots), FreePointer(p), 0, t)
  {
    var i, p' := FreeSlot(p.slots), Inserted(p, t);
    forall j | 0 <= j < |p.slots| && j != i
      ensures Follows(p, p', j, FreePointer(p), 0, |t|)
    {
      assert InPage(p, j);
    }
  }

  // ----- Apply delete -----

  function Purged(p: Page, i: nat): (p': Page)
    requires i < |p.slots| && p.slots[i].size != 0 && InPage(p, i)
    ensures |p'.slots| == |p.slots|
  {
    var at, n := p.slots[i].offset, Len(p.slots[i]);
    var o := at - FreePointer(p);
    Page(seq(|p.slots|, j requires 0 <= j < |p.slots| =>
               if j == i then Slot(0, 0)
               else if p.slots[j].size != 0 && p.slots[j].offset < at then Slot(p.slots[j].offset + n, p.slots[j].size)
               else p.slots[j]),
         p.tuples[..o] + p.tuples[o + n..])
  }

  /** Deleting for good empties the slot and changes nothing else; the bytes are free
      again. */
  lemma PurgeRefines(p: Page, i: nat)
    requires WellFormed(p) && i < |p.slots| && p.slots[i].size != 0 && InPage(p, i)
    ensures WellFormed(Purged(p, i)) && Items(Purged(p, i)) == Items(p)[i := Empty]
    ensures Room(Purged(p, i)) == Room(p) + Len(p.slots[i])
  {
    var at, n, p' := p.slots[i].offset, Len(p.slots[i]), Purged(p, i);
    PurgeSpliced(p, i);
    SpliceKeeps(p, p', i, at, n, []);
    SpliceItems(p, p', i, at, n, []);
  }

  lemma PurgeSpliced(p: Page, i: nat)
    requires i < |p.slots| && p.slots[i].size != 0 && InPage(p, i)
    ensures Spliced(p, Purged(p, i), i, p.slots[i].offset, Len(p.slots[i]), [])
  {
    var at, n, p' := p.slots[i].offset, Len(p.slots[i]), Purged(p, i);
    var o := at - FreePointer(p);
    assert p'.tuples == p.tuples[..o] + [] + p.tuples[o + n..];
    forall j | 0 <= j < |p.slots| && j != i
      ensures Follows(p, p', j, at, n, 0)
    {
    }
  }

  // ----- Mark and roll back -----

  function Flipped(p: Page, i: nat): Page
    requires i < |p.slots|
  {
    p.(slots := p.slots[i := p.slots[i].(size := -p.slots[i].size)])
  }

  function FlippedItem(item: Item): Item {
    match item
    case Empty => Empty
    case Live(b) => Marked(b)
    case Marked(b) => Live(b)
  }

  lemma FlipKeeps(p: Page, i: nat)
    requires WellFormed(p) && i < |p.slots|
    ensures WellFormed(Flipped(p, i))
  {
    var p' := Flipped(p, i);
    TotalUpdate(p.slots, i, p'.slots[i]);
    forall j | 0 <= j < |p.slots|
      ensures InPage(p', j)
    {
      assert InPage(p, j);
    }
    forall j, k | 0 <= j < |p.slots| && 0 <= k < |p.slots|
      ensures Apart(p', j, k)
    {
      assert Apart(p, j, k);
    }
    forall x | FreePointer(p') <= x < PAGE_SIZE
      ensures Covered(p', x)
    {
      assert Covered(p, x);
      var j :| Holds(p, j, x);
      assert Holds(p', j, x);
    }
  }

  /** Flipping the sign of a size marks a tuple, or takes the mark back. */
  lemma FlipRefines(p: Page, i: nat)
    requires WellFormed(p) && i < |p.slots|
    ensures WellFormed(Flipped(p, i)) && Items(Flipped(p, i)) == Items(p)[i := FlippedItem(Items(p)[i])]
  {
    FlipKeeps(p, i);
    var p' := Flipped(p, i);
    forall j | 0 <= j < |p.slots|
      ensures Items(p')[j] == if j == i then FlippedItem(Items(p)[i]) else Items(p)[j]
    {
      assert InPage(p, j) && InPage(p', j);
    }
  }

  // ----- Update -----

  predicate CanUpdate(p: Page, i: nat, t: seq<byte>)
    requires i < |p.slots|
  {
    p.slots[i].size > 0 && Room(p) >= |t| - p.slots[i].size
  }

  // Only live slots are moved along with their tuples.
  function Updated(p: Page, i: nat, t: seq<byte>): (p': Page)
    requires i < |p.slots| && p.slots[i].size > 0 && InPage(p, i)
    ensures |p'.slots| == |p.slots|
  {
    var at, n := p.slots[i].offset, p.slots[i].size;
    var o := at - FreePointer(p);
    Page(seq(|p.slots|, j requires 0 <= j < |p.slots| =>
               if j == i then Slot(if t == [] then at else at + n - |t|, |t|)
               else if p.slots[j].size > 0 && p.slots[j].offset < at + n then Slot(p.slots[j].offset + n - |t|, p.slots[j].size)
               else p.slots[j]),
         p.tuples[..o] + t + p.tuples[o + n..])
  }

  ghost predicate MarkedBelow(p: Page, i: nat, m: int)
    requires i < |p.slots|
  {
    0 <= m < |p.slots| && p.slots[m].size < 0 && p.slots[m].offset < p.slots[i].offset
  }

  // The length stays, or nothing marked as deleted is stored before the tuple.
  ghost predicate SafeUpdate(p: Page, i: nat, t: seq<byte>)
    requires i < |p.slots|
  {
    |t| == p.slots[i].size || forall m :: !MarkedBelow(p, i, m)
  }

  /** A safe update changes the tuple of its slot and nothing else. */
  lemma UpdateRefines(p: Page, i: nat, t: seq<byte>)
    requires WellFormed(p) && i < |p.slots| && CanUpdate(p, i, t) && SafeUpdate(p, i, t) && InPage(p, i)
    ensures WellFormed(Updated(p, i, t))
    ensures Items(Updated(p, i, t)) == Items(p)[i := if t == [] then Empty else Live(t)]
  {
    var at, n, p' := p.slots[i].offset, p.slots[i].size, Updated(p, i, t);
    UpdateSpliced(p, i, t);
    SpliceKeeps(p, p', i, at, n, t);
    SpliceItems(p, p', i, at, n, t);
  }

  lemma UpdateSpliced(p: Page, i: nat, t: seq<byte>)
    requires WellFormed(p) && i < |p.slots| && p.slots[i].size > 0 && SafeUpdate(p, i, t) && InPage(p, i)
    ensures Spliced(p, Updated(p, i, t), i, p.slots[i].offset, p.slots[i].size, t)
  {
    var at, n, p' := p.slots[i].offset, p.slots[i].size, Updated(p, i, t);
    forall j | 0 <= j < |p.slots| && j != i
      ensures Follows(p, p', j, at, n, |t|)
    {
      assert Apart(p, i, j);
      assert !MarkedBelow(p, i, j) || |t| == n;
    }
  }

  // ----- Updates that are not safe -----

  lemma TopMarked(p: Page, i: nat, m0: int) returns (m: int)
    requires i < |p.slots| && MarkedBelow(p, i, m0)
    ensures MarkedBelow(p, i, m)
    ensures forall k :: MarkedBelow(p, i, k) ==> p.slots[k].offset <= p.slots[m].offset
  {
    m := m0;
    var n := 0;
    while n < |p.slots|
      invariant 0 <= n <= |p.slots| && MarkedBelow(p, i, m)
      invariant forall k :: MarkedBelow(p, i, k) && k < n ==> p.slots[k].offset <= p.slots[m].offset
    {
      if MarkedBelow(p, i, n) && p.slots[n].offset > p.slots[m].offset { m := n; }
      n := n + 1;
    }
  }

  lemma BottomMarked(p: Page, i: nat, m0: int) returns (m: int)
    requires i < |p.slots| && MarkedBelow(p, i, m0)
    ensures MarkedBelow(p, i, m)
    ensures forall k :: MarkedBelow(p, i, k) ==> p.slots[m].offset <= p.slots[k].offset
  {
    m := m0;
    var n := 0;
    while n < |p.slots|
      invariant 0 <= n <= |p.slots| && MarkedBelow(p, i, m)
      invariant forall k :: MarkedBelow(p, i, k) && k < n ==> p.slots[m].offset <= p.slots[k].offset
    {
      if MarkedBelow(p, i, n) && p.slots[n].offset < p.slots[m].offset { m := n; }
      n := n + 1;
    }
  }

  // Growing pushes the tuples stored below onto the highest marked one.
  lemma GrowthCollides(p: Page, i: nat, t: seq<byte>, m: int)
    requires WellFormed(p) && i < |p.slots| && CanUpdate(p, i, t) && InPage(p, i)
    requires |t| > p.slots[i].size && MarkedBelow(p, i, m)
    requires forall k :: MarkedBelow(p, i, k) ==> p.slots[k].offset <= p.slots[m].offset
    ensures exists j :: 0 <= j < |p.slots| && !Apart(Updated(p, i, t), j, m)
  {
    var p', at, grow := Updated(p, i, t), p.slots[i].offset, |t| - p.slots[i].size;
    var last := p.slots[m].offset + Len(p.slots[m]) - 1;
    assert Apart(p, i, m) && InPage(p, m);
    if last >= at - grow {
      assert !Apart(p', i, m);
    } else {
      assert Covered(p, last + grow);
      var q :| Holds(p, q, last + grow);
      assert Apart(p, q, m) && Apart(p, q, i);
      assert !MarkedBelow(p, i, q);
      assert !Apart(p', q, m);
    }
  }

  // Shrinking pulls them onto the lowest marked one, or leaves that below the tuples.
  lemma ShrinkCollides(p: Page, i: nat, t: seq<byte>, m: int)
    requires WellFormed(p) && i < |p.slots| && CanUpdate(p, i, t) && InPage(p, i)
    requires |t| < p.slots[i].size && MarkedBelow(p, i, m)
    requires forall k :: MarkedBelow(p, i, k) ==> p.slots[m].offset <= p.slots[k].offset
    ensures !InPage(Updated(p, i, t), m) || exists j :: 0 <= j < |p.slots| && !Apart(Updated(p, i, t), j, m)
  {
    var p', at, cut := Updated(p, i, t), p.slots[i].offset, p.slots[i].size - |t|;
    var first := p.slots[m].offset;
    assert Apart(p, i, m) && InPage(p, m);
    if first >= FreePointer(p) + cut {
      assert Covered(p, first - cut);
      var q :| Holds(p, q, first - cut);
      assert Apart(p, q, m) && Apart(p, q, i);
      assert !MarkedBelow(p, i, q);
      assert !Apart(p', q, m);
    }
  }

  /** An update keeps the page well formed exactly when it is safe. */
  lemma UpdateKeepsIff(p: Page, i: nat, t: seq<byte>)
    requires WellFormed(p) && i < |p.slots| && CanUpdate(p, i, t) && InPage(p, i)
    ensures WellFormed(Updated(p, i, t)) <==> SafeUpdate(p, i, t)
  {
    if SafeUpdate(p, i, t) {
      UpdateRefines(p, i, t);
    } else {
      var m :| MarkedBelow(p, i, m);
      if |t| > p.slots[i].size {
        m := TopMarked(p, i, m);
        GrowthCollides(p, i, t, m);
      } else {
        m := BottomMarked(p, i, m);
        ShrinkCollides(p, i, t, m);
      }
    }
  }

  // Slot 1 is marked and stored below slot 0.
  function MarkedPair(): Page {
    Page([Slot(511, 1), Slot(510, -1)], [7, 8])
  }

  lemma MarkedPairHolds()
    ensures WellFormed(MarkedPair()) && Items(MarkedPair()) == [Live([8]), Marked([7])]
  {
    var p := MarkedPair();
    assert p.slots[1..][1..] == [];
    forall x | FreePointer(p) <= x < PAGE_SIZE
      ensures Covered(p, x)
    {
      assert Holds(p, if x == 511 then 0 else 1, x);
    }
    assert p.tuples[1..2] == [8] && p.tuples[0..1] == [7];
  }

  // If slot 0 grows by a byte, taking the mark of slot 1 back brings up a byte of the
  // other tuple.
  lemma UnsafeUpdateLosesTuple()
    ensures var p := MarkedPair();
      && WellFormed(p) && InPage(p, 0) && CanUpdate(p, 0, [9, 9]) && !SafeUpdate(p, 0, [9, 9])
      && Items(p) == [Live([8]), Marked([7])]
      && var p' := Flipped(Updated(p, 0, [9, 9]), 1);
        InPage(p', 1) && ItemAt(p', 1) == Live([9])
  {
    MarkedPairHolds();
    var p := MarkedPair();
    assert MarkedBelow(p, 0, 1);
    var u := Updated(p, 0, [9, 9]);
    assert u.tuples == [7, 9, 9];
    assert u.tuples[1..2] == [9];
  }
}
