/**
 When a table page has room: its free space depends on its items alone, and an insert or an
 update is turned down only if no page at all can hold the items it would lead to.
 */
module TablePageRoom {
  import opened Bytes
  import opened TablePageLayout
  import opened TablePageOperations

  // ----- The space that items take -----

  function BytesOf(item: Item): seq<byte> {
    if item.Empty? then [] else item.bytes
  }

  // Eight bytes for the slot, and the tuple.
  function Space(items: seq<Item>): nat {
    if items == [] then 0 else 8 + |BytesOf(items[0])| + Space(items[1..])
  }

  lemma {:induction false} SpaceUpdate(items: seq<Item>, i: nat, item: Item)
    requires i < |items|
    ensures Space(items[i := item]) == Space(items) - |BytesOf(items[i])| + |BytesOf(item)|
  {
    if i > 0 {
      assert items[i := item][1..] == items[1..][i - 1 := item];
      SpaceUpdate(items[1..], i - 1, item);
    } else {
      assert items[i := item][1..] == items[1..];
    }
  }

  lemma {:induction false} SpaceAppend(items: seq<Item>, item: Item)
    ensures Space(items + [item]) == Space(items) + 8 + |BytesOf(item)|
  {
    if items == [] {
      assert (items + [item])[1..] == [];
    } else {
      assert (items + [item])[1..] == items[1..] + [item];
      SpaceAppend(items[1..], item);
    }
  }

  lemma {:induction false} SpaceTotal(slots: seq<Slot>, items: seq<Item>)
    requires |slots| == |items| && forall i :: 0 <= i < |slots| ==> Len(slots[i]) == |BytesOf(items[i])|
    ensures Space(items) == 8 * |slots| + Total(slots)
  {
    if slots != [] {
      SpaceTotal(slots[1..], items[1..]);
    }
  }

  /** The room in a page is what its items leave. */
  lemma RoomIs(p: Page)
    requires WellFormed(p)
    ensures Room(p) == PAGE_SIZE - HEADER - Space(Items(p))
  {
    forall i | 0 <= i < |p.slots|
      ensures Len(p.slots[i]) == |BytesOf(Items(p)[i])|
    {
      assert InPage(p, i);
    }
    SpaceTotal(p.slots, Items(p));
  }

  // Some page holds these items.
  ghost predicate Storable(items: seq<Item>) {
    exists q :: WellFormed(q) && Items(q) == items
  }

  lemma StorableSpace(items: seq<Item>)
    requires Storable(items)
    ensures Space(items) <= PAGE_SIZE - HEADER
  {
    var q :| WellFormed(q) && Items(q) == items;
    RoomIs(q);
  }

  // ----- Insert -----

  // The first empty place in a list of items, or its length.
  function FirstEmpty(items: seq<Item>): (i: nat)
    ensures i <= |items|
  {
    if items == [] || items[0].Empty? then 0 else 1 + FirstEmpty(items[1..])
  }

  function WithTuple(items: seq<Item>, t: seq<byte>): seq<Item> {
    var i := FirstEmpty(items);
    if i < |items| then items[i := Live(t)] else items + [Live(t)]
  }

  lemma {:induction false} FirstEmptySlot(slots: seq<Slot>, items: seq<Item>)
    requires |slots| == |items| && forall i :: 0 <= i < |slots| ==> (slots[i].size == 0 <==> items[i].Empty?)
    ensures FirstEmpty(items) == FreeSlot(slots)
    ensures FirstEmpty(items) < |items| ==> items[FirstEmpty(items)].Empty?
  {
    if slots != [] {
      FirstEmptySlot(slots[1..], items[1..]);
    }
  }

  /** An insert is taken exactly when some page can hold the items with the tuple in the
      first empty slot, or in a new one if there is none. */
  lemma InsertFitsIff(p: Page, t: seq<byte>)
    requires WellFormed(p) && t != []
    ensures CanInsert(p, t) <==> Storable(WithTuple(Items(p), t))
    ensures CanInsert(p, t) ==> WellFormed(Inserted(p, t)) && Items(Inserted(p, t)) == WithTuple(Items(p), t)
  {
    var items := Items(p);
    FirstEmptySlot(p.slots, items);
    RoomIs(p);
    if FirstEmpty(items) < |items| {
      SpaceUpdate(items, FirstEmpty(items), Live(t));
    } else {
      SpaceAppend(items, Live(t));
    }
    if CanInsert(p, t) {
      InsertRefines(p, t);
    }
    if Storable(WithTuple(items, t)) {
      StorableSpace(WithTuple(items, t));
    }
  }

  // ----- Update -----

  // The items with another tuple in one slot.
  function WithUpdate(items: seq<Item>, i: nat, t: seq<byte>): seq<Item>
    requires i < |items|
  {
    items[i := if t == [] then Empty else Live(t)]
  }

  // A tuple put into an empty slot.
  lemma InsertedAtRefines(p: Page, i: nat, t: seq<byte>)
    requires WellFormed(p) && i < |p.slots| && p.slots[i].size == 0 && t != [] && Room(p) >= |t|
    ensures WellFormed(InsertedAt(p, i, t)) && Items(InsertedAt(p, i, t)) == Items(p)[i := Live(t)]
  {
    var p' := InsertedAt(p, i, t);
    forall j | 0 <= j < |p.slots| && j != i
      ensures Follows(p, p', j, FreePointer(p), 0, |t|)
    {
      assert InPage(p, j);
    }
    SpliceKeeps(p, p', i, FreePointer(p), 0, t);
    SpliceItems(p, p', i, FreePointer(p), 0, t);
  }

  /** An update of a live tuple is taken exactly when some page can hold the items with the
      new tuple, though the page it leads to is such a page only if the update is safe. */
  lemma UpdateFitsIff(p: Page, i: nat, t: seq<byte>)
    requires WellFormed(p) && i < |p.slots|
    ensures CanUpdate(p, i, t) <==> Items(p)[i].Live? && Storable(WithUpdate(Items(p), i, t))
  {
    var items := Items(p);
    assert InPage(p, i);
    RoomIs(p);
    SpaceUpdate(items, i, if t == [] then Empty else Live(t));
    if CanUpdate(p, i, t) {
      var q := Purged(p, i);
      PurgeRefines(p, i);
      assert q.slots[i].size == 0;
      if t == [] {
        assert Items(q) == WithUpdate(items, i, t);
      } else {
        InsertedAtRefines(q, i, t);
        assert Items(InsertedAt(q, i, t)) == WithUpdate(items, i, t);
      }
    }
    if Storable(WithUpdate(items, i, t)) {
      StorableSpace(WithUpdate(items, i, t));
    }
  }
}
