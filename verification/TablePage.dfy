/**
 The table page in its 512 bytes.  Every operation is proved to do to the bytes what the
 corresponding function does to the page they stand for.
 */
module TablePages {
  import opened Bytes
  import opened TablePageLayout
  import opened TablePageOperations
  import opened TablePageRoom
  import opened TablePageBytes
  import opened TableRollback
  import opened TableUndo

  const INVALID_PAGE_ID := -1

  class TablePage {
    const data: array<byte>
    // The page that the bytes stand for.
    ghost var page: Page

    ghost predicate Rep()
      reads this, data
    {
      Stands(data[..], page)
    }

    ghost predicate Valid()
      reads this, data
    {
      Rep() && WellFormed(page)
    }

    // Page id, log sequence number and links, which tuple operations leave alone.
    ghost function Links(): seq<byte>
      requires data.Length >= 16
      reads data
    {
      data[..][..16]
    }

    constructor ()
      ensures data.Length == PAGE_SIZE && fresh(data)
    {
      data := new byte[PAGE_SIZE](_ => 0);
    }

    method Init(pageId: int32, prev: int32)
      requires data.Length == PAGE_SIZE
      modifies data, `page
      ensures Valid() && page == Page([], [])
      ensures Int32At(data[..], 0) == pageId && Int32At(data[..], 8) == prev && Int32At(data[..], 12) == INVALID_PAGE_ID
    {
      Int32Back(data[..], 0, pageId);
      SetInt32(0, pageId);
      Int32Back(data[..], 8, prev);
      Int32Beside(data[..], 8, Encode(prev), 0);
      SetInt32(8, prev);
      Int32Back(data[..], 12, INVALID_PAGE_ID);
      Int32Beside(data[..], 12, Encode(INVALID_PAGE_ID), 0);
      Int32Beside(data[..], 12, Encode(INVALID_PAGE_ID), 8);
      SetInt32(12, INVALID_PAGE_ID);
      ghost var d := data[..];
      InitSpace(PAGE_SIZE, 0);
      SameLinks(d, data[..], 0);
      SameLinks(d, data[..], 8);
      SameLinks(d, data[..], 12);
    }

    method InitSpace(pointer: int32, count: int32)
      requires data.Length == PAGE_SIZE && pointer == PAGE_SIZE && count == 0
      modifies data, `page
      ensures Rep() && page == Page([], []) && Links() == old(Links())
    {
      ghost var d0 := data[..];
      SetInt32(16, pointer);
      ghost var d1 := data[..];
      SetInt32(20, count);
      page := Page([], []);
      InitWrites(d0, d1, pointer, count, page);
    }

    // ----- Fields -----

    method GetInt32(k: nat) returns (v: int32)
      requires k + 4 <= data.Length
      ensures v == Int32At(data[..], k)
    {
      v := Decode(data[k..k + 4]);
      assert data[..][k..k + 4] == data[k..k + 4];
    }

    method SetInt32(k: nat, v: int32)
      requires k + 4 <= data.Length
      modifies data
      ensures data[..] == Write(old(data[..]), k, Encode(v))
      ensures 16 <= k ==> Links() == old(Links())
    {
      PutBytes(data, k, Encode(v));
      if 16 <= k { HeadBeside(old(data[..]), k, Encode(v), 16); }
    }

    method GetTupleCount() returns (n: int32)
      requires Rep()
      ensures n == |page.slots|
    {
      n := GetInt32(20);
    }

    method GetFreeSpacePointer() returns (n: int32)
      requires Rep()
      ensures n == FreePointer(page)
    {
      n := GetInt32(16);
    }

    method GetFreeSpaceSize() returns (n: int)
      requires Rep()
      ensures n == Room(page)
    {
      var pointer := GetFreeSpacePointer();
      var count := GetTupleCount();
      n := pointer - 24 - count * 8;
    }

    method GetSlot(i: nat) returns (offset: int32, size: int32)
      requires Rep() && i < |page.slots|
      ensures Slot(offset, size) == page.slots[i]
    {
      offset := GetInt32(HEADER + 8 * i);
      size := GetInt32(HEADER + 4 + 8 * i);
      assert SlotAt(data[..], i) == page.slots[i];
    }

    method SetTupleSize(i: nat, size: int32)
      requires Rep() && i < |page.slots|
      modifies data, `page
      ensures Rep() && Links() == old(Links())
      ensures page == Resized(old(page), i, size)
    {
      PutSlot(data[..], page, i, size, true);
      SetInt32(HEADER + 4 + 8 * i, size);
      page := Resized(page, i, size);
    }

    method SetTupleOffset(i: nat, offset: int32)
      requires Rep() && i < |page.slots|
      modifies data, `page
      ensures Rep() && Links() == old(Links())
      ensures page == Moved(old(page), i, offset)
    {
      PutSlot(data[..], page, i, offset, false);
      SetInt32(HEADER + 8 * i, offset);
      page := Moved(page, i, offset);
    }

    method SetFreeSpacePointer(v: int32)
      requires Rep() && HEADER + 8 * |page.slots| <= v <= PAGE_SIZE
      modifies data, `page
      ensures Rep() && Links() == old(Links())
      ensures page == Page(old(page).slots, old(data[..])[v..])
    {
      PutPointer(data[..], page, v);
      ghost var tuples := data[..][v..];
      SetInt32(16, v);
      page := Page(page.slots, tuples);
    }

    method GetNextPageId() returns (id: int32)
      requires data.Length == PAGE_SIZE
      ensures id == Int32At(data[..], 12)
    {
      id := GetInt32(12);
    }

    method SetNextPageId(id: int32)
      requires Valid()
      modifies data
      ensures Valid() && Int32At(data[..], 12) == id
      ensures Int32At(data[..], 0) == old(Int32At(data[..], 0)) && Int32At(data[..], 8) == old(Int32At(data[..], 8))
    {
      ghost var d := data[..];
      PutAside(d, page, 12, Encode(id));
      Int32Back(d, 12, id);
      Int32Beside(d, 12, Encode(id), 0);
      Int32Beside(d, 12, Encode(id), 8);
      SetInt32(12, id);
    }

    // ----- Insert -----

    // Fills slot `i`, which is one of the slots or the next one.
    method StoreSlot(i: nat, offset: int32, size: int32)
      requires Rep() && i <= |page.slots| && (i == |page.slots| ==> Room(page) >= 8)
      modifies data, `page
      ensures Rep() && Links() == old(Links())
      ensures page == Stored(old(page), i, Slot(offset, size))
    {
      var count := GetTupleCount();
      if i < count {
        SetTupleOffset(i, offset);
        SetTupleSize(i, size);
      } else {
        ghost var d0 := data[..];
        SetInt32(HEADER + 8 * count, offset);
        ghost var d1 := data[..];
        SetInt32(HEADER + 4 + 8 * count, size);
        AppendSlot(d0, d1, data[..], page, offset, size);
        SetInt32(20, count + 1);
        page := page.(slots := page.slots + [Slot(offset, size)]);
      }
    }

    method FindFreeSlot() returns (i: nat)
      requires Rep()
      ensures i == FreeSlot(page.slots)
    {
      var count := GetTupleCount();
      i := 0;
      while i < count
        invariant i <= count
        invariant forall j :: 0 <= j < i ==> page.slots[j].size != 0
      {
        var _, size := GetSlot(i);
        if size == 0 { break; }
        i := i + 1;
      }
    }

    method InsertTuple(t: seq<byte>) returns (ok: bool, slot: nat)
      requires Valid() && t != []
      modifies data, `page
      ensures Valid() && Links() == old(Links())
      ensures ok == CanInsert(old(page), t)
      ensures ok <==> Storable(WithTuple(Items(old(page)), t))
      ensures Items(page) == if ok then WithTuple(Items(old(page)), t) else Items(old(page))
      ensures page == if ok then Inserted(old(page), t) else old(page)
      ensures ok ==> slot == FreeSlot(old(page).slots)
    {
      slot := 0;
      InsertFitsIff(page, t);
      var room := GetFreeSpaceSize();
      if room < |t| { return false, 0; }
      slot := FindFreeSlot();
      var count := GetTupleCount();
      if slot == count && room < |t| + 8 { return false, 0; }
      InsertRefines(page, t);
      InsertAt(slot, t);
      ok := true;
    }

    method InsertAt(slot: nat, t: seq<byte>)
      requires Rep() && slot <= |page.slots| && Room(page) >= |t| + if slot < |page.slots| then 0 else 8
      modifies data, `page
      ensures Rep() && Links() == old(Links())
      ensures page == InsertedAt(old(page), slot, t)
    {
      var pointer := GetFreeSpacePointer();
      WriteTuple(pointer - |t|, t);
      StoreSlot(slot, pointer - |t|, |t|);
    }

    // Takes the bytes in front of the tuples for one more.
    method WriteTuple(pointer: int32, t: seq<byte>)
      requires Rep() && HEADER + 8 * |page.slots| <= pointer && pointer + |t| == FreePointer(page)
      modifies data, `page
      ensures Rep() && Links() == old(Links())
      ensures page == Page(old(page).slots, t + old(page).tuples)
    {
      ghost var d := data[..];
      SetFreeSpacePointer(pointer);
      Overwrite(pointer, t);
      assert d[pointer..][|t|..] == d[pointer + |t|..];
    }

    // ----- Delete -----

    method MarkDelete(slot: nat) returns (ok: bool)
      requires Valid()
      modifies data, `page
      ensures Valid() && Links() == old(Links())
      ensures ok == (slot < |old(page).slots| && old(page).slots[slot].size >= 0)
      ensures page == Done(old(page), DeleteOp(slot))
      ensures Items(page) == if slot < |old(page).slots| then Items(old(page))[slot := MarkedItem(Items(old(page))[slot])] else Items(old(page))
    {
      DeleteItems(page, slot);
      var count := GetTupleCount();
      if slot >= count { return false; }
      var _, size := GetSlot(slot);
      if size < 0 { return false; }
      if size > 0 {
        FlipKeeps(page, slot);
        SetTupleSize(slot, -size);
      }
      return true;
    }

    method RollbackDelete(slot: nat)
      requires Valid() && slot < |page.slots|
      modifies data, `page
      ensures Valid() && Links() == old(Links())
      ensures page == Undone(old(page), Deleting(slot))
      ensures Items(page) == Items(old(page))[slot := UnmarkedItem(Items(old(page))[slot], true)]
    {
      assert InPage(page, slot);
      UndeleteItems(page, slot);
      var _, size := GetSlot(slot);
      if size < 0 {
        FlipKeeps(page, slot);
        SetTupleSize(slot, -size);
      }
    }

    // ----- Update and apply delete -----

    // Puts `t` in the place of the `n` bytes at `at`, moving what lies before them.
    method ReplaceBytes(at: int32, n: nat, t: seq<byte>)
      requires Rep() && FreePointer(page) <= at && at + n <= PAGE_SIZE
      requires HEADER + 8 * |page.slots| <= FreePointer(page) + n - |t|
      modifies data, `page
      ensures Rep() && Links() == old(Links())
      ensures var o := at - FreePointer(old(page));
        page == Page(old(page).slots, old(page).tuples[..o] + t + old(page).tuples[o + n..])
    {
      ghost var d, p := data[..], page;
      var pointer := GetFreeSpacePointer();
      var v := pointer + n - |t|;
      MoveBytes(pointer, at, v);
      Overwrite(v + (at - pointer), t);
      assert page.tuples == p.tuples[..at - pointer] + t + p.tuples[at - pointer + n..] by {
        MoveAndWrite(d, p, at, n, t);
      }
    }

    method Overwrite(k: nat, t: seq<byte>)
      requires Rep() && FreePointer(page) <= k && k + |t| <= PAGE_SIZE
      modifies data, `page
      ensures Rep() && Links() == old(Links())
      ensures page == Page(old(page).slots, Write(old(page).tuples, k - FreePointer(old(page)), t))
    {
      PutTuples(data[..], page, k, t);
      HeadBeside(data[..], k, t, 16);
      PutBytes(data, k, t);
      page := Page(page.slots, Write(page.tuples, k - FreePointer(page), t));
    }

    // Moves the bytes from the free space pointer to `at`, and the pointer with them.
    method MoveBytes(pointer: int32, at: int32, v: int32)
      requires Rep() && pointer == FreePointer(page) <= at <= PAGE_SIZE
      requires HEADER + 8 * |page.slots| <= v && v + at - pointer <= PAGE_SIZE
      modifies data, `page
      ensures Rep() && Links() == old(Links())
      ensures page == Page(old(page).slots, Write(old(data[..]), v, old(data[..])[pointer..at])[v..])
    {
      ghost var d := data[..];
      assert data[pointer..at] == d[pointer..at];
      PutBehind(d, page, v, d[pointer..at]);
      HeadBeside(d, v, d[pointer..at], 16);
      MemMove(data, v, pointer, at - pointer);
      page := Page(page.slots, data[..][pointer..]);
      SetFreeSpacePointer(v);
    }

    method ShiftLive(limit: int, delta: int)
      requires Rep() && Offsets(page.slots) && -PAGE_SIZE <= delta <= PAGE_SIZE
      modifies data, `page
      ensures Rep() && Links() == old(Links()) && page.tuples == old(page).tuples && |page.slots| == |old(page).slots|
      ensures forall j :: 0 <= j < |page.slots| ==>
        page.slots[j] == Shifted(old(page).slots[j], old(page).slots[j].size > 0 && old(page).slots[j].offset < limit, delta)
    {
      ghost var p := page;
      var count := GetTupleCount();
      var i := 0;
      while i < count
        invariant 0 <= i <= count == |page.slots| == |p.slots|
        invariant Rep() && Links() == old(Links()) && page.tuples == p.tuples
        invariant forall j :: 0 <= j < i ==> page.slots[j] == Shifted(p.slots[j], p.slots[j].size > 0 && p.slots[j].offset < limit, delta)
        invariant forall j :: i <= j < count ==> page.slots[j] == p.slots[j]
      {
        var offset, size := GetSlot(i);
        if size > 0 && offset < limit {
          SetTupleOffset(i, offset + delta);
        }
        i := i + 1;
      }
    }

    method ShiftHeld(limit: int, delta: int)
      requires Rep() && Offsets(page.slots) && -PAGE_SIZE <= delta <= PAGE_SIZE
      modifies data, `page
      ensures Rep() && Links() == old(Links()) && page.tuples == old(page).tuples && |page.slots| == |old(page).slots|
      ensures forall j :: 0 <= j < |page.slots| ==>
        page.slots[j] == Shifted(old(page).slots[j], old(page).slots[j].size != 0 && old(page).slots[j].offset < limit, delta)
    {
      ghost var p := page;
      var count := GetTupleCount();
      var i := 0;
      while i < count
        invariant 0 <= i <= count == |page.slots| == |p.slots|
        invariant Rep() && Links() == old(Links()) && page.tuples == p.tuples
        invariant forall j :: 0 <= j < i ==> page.slots[j] == Shifted(p.slots[j], p.slots[j].size != 0 && p.slots[j].offset < limit, delta)
        invariant forall j :: i <= j < count ==> page.slots[j] == p.slots[j]
      {
        var offset, size := GetSlot(i);
        if size != 0 && offset < limit {
          SetTupleOffset(i, offset + delta);
        }
        i := i + 1;
      }
    }

    method UpdateTuple(slot: nat, t: seq<byte>) returns (ok: bool, was: seq<byte>)
      requires Valid()
      modifies data, `page
      ensures Rep() && Links() == old(Links())
      ensures ok == Updates(old(page), UpdateOp(slot, t))
      ensures ok <==> slot < |old(page).slots| && Items(old(page))[slot].Live? && Storable(WithUpdate(Items(old(page)), slot, t))
      ensures ok ==> InPage(old(page), slot) && was == BytesAt(old(page), old(page).slots[slot])
      ensures page == if ok then Updated(old(page), slot, t) else old(page)
      ensures ok ==> (Valid() <==> SafeUpdate(old(page), slot, t))
      ensures ok && Valid() ==> Items(page) == WithUpdate(Items(old(page)), slot, t)
    {
      was := [];
      var count := GetTupleCount();
      if slot >= count { return false, []; }
      UpdateFitsIff(page, slot, t);
      var at, n := GetSlot(slot);
      if n <= 0 { return false, []; }
      var room := GetFreeSpaceSize();
      if room < |t| - n { return false, []; }
      assert InPage(page, slot);
      UpdateTakes(page, slot, t);
      OffsetsOk(page);
      ok, was := true, data[at..at + n];
      assert was == data[..][FreePointer(page)..][at - FreePointer(page)..at - FreePointer(page) + n];
      ApplyUpdate(slot, at, n, t);
    }

    method ApplyUpdate(slot: nat, at: int32, n: int32, t: seq<byte>)
      requires Rep() && slot < |page.slots| && InPage(page, slot) && Slot(at, n) == page.slots[slot] && n > 0
      requires Room(page) >= |t| - n && Offsets(page.slots)
      modifies data, `page
      ensures Rep() && Links() == old(Links())
      ensures page == Updated(old(page), slot, t)
    {
      ghost var p := page;
      ReplaceBytes(at, n, t);
      ghost var mid := p.slots[slot := p.slots[slot].(size := |t|)];
      ResizeAndShift(slot, |t|, at + n, n - |t|, mid);
      UpdatedIs(p, slot, t, page, mid);
    }

    method ResizeAndShift(slot: nat, size: int32, limit: int, delta: int, ghost mid: seq<Slot>)
      requires Rep() && slot < |page.slots| && mid == page.slots[slot := page.slots[slot].(size := size)]
      requires Offsets(mid) && -PAGE_SIZE <= delta <= PAGE_SIZE
      modifies data, `page
      ensures Rep() && Links() == old(Links()) && page.tuples == old(page).tuples && |page.slots| == |mid|
      ensures forall j :: 0 <= j < |mid| ==> page.slots[j] == Shifted(mid[j], mid[j].size > 0 && mid[j].offset < limit, delta)
    {
      SetTupleSize(slot, size);
      ShiftLive(limit, delta);
    }

    method ApplyDelete(slot: nat)
      requires Valid() && slot < |page.slots| && page.slots[slot].size != 0
      modifies data, `page
      ensures Valid() && Links() == old(Links())
      ensures InPage(old(page), slot) && page == Purged(old(page), slot)
      ensures Items(page) == Items(old(page))[slot := Empty]
    {
      assert InPage(page, slot);
      PurgeRefines(page, slot);
      OffsetsOk(page);
      DeleteNow(slot);
    }

    method DeleteNow(slot: nat)
      requires Rep() && slot < |page.slots| && InPage(page, slot) && page.slots[slot].size != 0 && Offsets(page.slots)
      modifies data, `page
      ensures Rep() && Links() == old(Links())
      ensures page == Purged(old(page), slot)
    {
      ghost var p := page;
      var at, n := GetSlot(slot);
      if n < 0 { n := -n; }
      ReplaceBytes(at, n, []);
      ClearSlot(slot);
      ghost var mid := page.slots;
      ShiftHeld(at, n);
      PurgedIs(p, slot, page, mid);
    }

    method ClearSlot(slot: nat)
      requires Rep() && slot < |page.slots|
      modifies data, `page
      ensures Rep() && Links() == old(Links())
      ensures page == Page(old(page).slots[slot := Slot(0, 0)], old(page).tuples)
    {
      SetTupleSize(slot, 0);
      SetTupleOffset(slot, 0);
    }

    method GetTuple(slot: nat) returns (found: bool, t: seq<byte>)
      requires Valid()
      ensures found == (slot < |page.slots| && Items(page)[slot].Live?)
      ensures found ==> Items(page)[slot] == Live(t)
    {
      var count := GetTupleCount();
      if slot >= count { return false, []; }
      assert InPage(page, slot);
      var offset, size := GetSlot(slot);
      if size <= 0 { return false, []; }
      found, t := true, data[offset..offset + size];
      assert t == data[..][FreePointer(page)..][offset - FreePointer(page)..offset - FreePointer(page) + size];
    }
  }

  // The undo half of an abort: the write set from the back.
  method Abort(table: TablePage, writeSet: seq<WriteRecord>)
    requires table.Valid() && Undoable(table.page, writeSet)
    modifies table.data, table`page
    ensures table.Valid() && table.Links() == old(table.Links())
    ensures table.page == UndoneAll(old(table.page), writeSet)
  {
    var ws := writeSet;
    while ws != []
      invariant table.Valid() && table.Links() == old(table.Links())
      invariant Undoable(table.page, ws) && UndoneAll(table.page, ws) == UndoneAll(old(table.page), writeSet)
      decreases |ws|
    {
      UndoLast(table, ws[|ws| - 1], ws[..|ws| - 1]);
      ws := ws[..|ws| - 1];
    }
  }

  method UndoLast(table: TablePage, item: WriteRecord, ghost rest: seq<WriteRecord>)
    requires table.Valid() && Undoable(Undone(table.page, item), rest) && (item.Updating? || Works(table.page, item))
    modifies table.data, table`page
    ensures table.Valid() && table.Links() == old(table.Links())
    ensures table.page == Undone(old(table.page), item)
  {
    match item
    case Deleting(i) => table.RollbackDelete(i);
    case Inserting(i) => table.ApplyDelete(i);
    case Updating(i, t) =>
      var _, _ := table.UpdateTuple(i, t);
  }

  /** A transaction that ran on a page and aborts leaves in every slot that it did not
      update what it found there, and in all of them if its run was roomy, except for marks
      on which a delete of its own was refused. */
  method AbortRun(table: TablePage, writeSet: seq<WriteRecord>, ghost p: Page, ghost ops: seq<Op>)
    requires table.Valid() && WellFormed(p) && RunOk(p, ops) && Abortable(p, ops, |Final(p, ops).slots|)
    requires table.page == Final(p, ops) && writeSet == WriteSet(p, ops)
    modifies table.data, table`page
    ensures table.Valid() && |table.page.slots| == |Final(p, ops).slots| >= |p.slots|
    ensures forall j :: 0 <= j < |p.slots| ==>
      SlotRestored(Items(p)[j], Items(table.page)[j], j in Touched(p, ops), j in Emptied(p, ops), j in Revived(p, ops))
    ensures forall j :: |p.slots| <= j < |table.page.slots| ==> Items(table.page)[j] == Empty
    ensures Roomy(p, ops, |Final(p, ops).slots|) ==>
      && table.page.tuples == p.tuples
      && forall j :: 0 <= j < |p.slots| ==> Items(table.page)[j] == UnmarkedItem(Items(p)[j], j in Revived(p, ops))
  {
    AbortRestoresOthers(p, ops);
    AbortRestores(p, ops);
    Abort(table, writeSet);
  }

  // An update that is taken keeps the page well formed exactly when it is safe.
  lemma UpdateTakes(p: Page, i: nat, t: seq<byte>)
    requires WellFormed(p) && i < |p.slots| && CanUpdate(p, i, t) && InPage(p, i)
    ensures WellFormed(Updated(p, i, t)) <==> SafeUpdate(p, i, t)
    ensures WellFormed(Updated(p, i, t)) ==> Items(Updated(p, i, t)) == WithUpdate(Items(p), i, t)
  {
    UpdateKeepsIff(p, i, t);
    if SafeUpdate(p, i, t) { UpdateRefines(p, i, t); }
  }

  // The slots after the loop of an update, or of a delete.
  lemma UpdatedIs(p: Page, i: nat, t: seq<byte>, q: Page, mid: seq<Slot>)
    requires i < |p.slots| && p.slots[i].size > 0 && InPage(p, i)
    requires mid == p.slots[i := p.slots[i].(size := |t|)] && |q.slots| == |mid|
    requires forall j :: 0 <= j < |mid| ==>
      q.slots[j] == Shifted(mid[j], mid[j].size > 0 && mid[j].offset < p.slots[i].offset + p.slots[i].size, p.slots[i].size - |t|)
    requires var o := p.slots[i].offset - FreePointer(p);
      q.tuples == p.tuples[..o] + t + p.tuples[o + p.slots[i].size..]
    ensures q == Updated(p, i, t)
  {
    assert q.slots == Updated(p, i, t).slots;
  }

  lemma PurgedIs(p: Page, i: nat, q: Page, mid: seq<Slot>)
    requires i < |p.slots| && p.slots[i].size != 0 && InPage(p, i)
    requires mid == p.slots[i := Slot(0, 0)] && |q.slots| == |mid|
    requires forall j :: 0 <= j < |mid| ==>
      q.slots[j] == Shifted(mid[j], mid[j].size != 0 && mid[j].offset < p.slots[i].offset, Len(p.slots[i]))
    requires var o := p.slots[i].offset - FreePointer(p);
      q.tuples == p.tuples[..o] + [] + p.tuples[o + Len(p.slots[i])..]
    ensures q == Purged(p, i)
  {
    assert q.slots == Purged(p, i).slots;
  }

  lemma OffsetsOk(p: Page)
    requires WellFormed(p)
    ensures Offsets(p.slots)
  {
    forall j | 0 <= j < |p.slots| && p.slots[j].size != 0
      ensures 0 <= p.slots[j].offset <= PAGE_SIZE
    {
      assert InPage(p, j);
    }
  }

  function Shifted(s: Slot, move: bool, delta: int): Slot {
    if move then s.(offset := s.offset + delta) else s
  }

  ghost predicate Offsets(slots: seq<Slot>) {
    forall j :: 0 <= j < |slots| && slots[j].size != 0 ==> 0 <= slots[j].offset <= PAGE_SIZE
  }

  function Resized(p: Page, i: nat, size: int): Page
    requires i < |p.slots|
  {
    p.(slots := p.slots[i := p.slots[i].(size := size)])
  }

  function Moved(p: Page, i: nat, offset: int): Page
    requires i < |p.slots|
  {
    p.(slots := p.slots[i := p.slots[i].(offset := offset)])
  }

  function Stored(p: Page, i: nat, s: Slot): Page {
    p.(slots := if i < |p.slots| then p.slots[i := s] else p.slots + [s])
  }
}
