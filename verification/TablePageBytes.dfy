/**
 How a table page lies in 512 bytes: the free space pointer at 16, the number of slots
 at 20, eight bytes a slot from 24, and tuples at the end.  Each lemma says what writing
 one field does to the page that the bytes stand for.
 */
module TablePageBytes {
  import opened Bytes
  import opened TablePageLayout

  function SlotAt(d: seq<byte>, i: nat): Slot
    requires HEADER + 8 * i + 8 <= |d|
  {
    Slot(Int32At(d, HEADER + 8 * i), Int32At(d, HEADER + 4 + 8 * i))
  }

  ghost predicate Stands(d: seq<byte>, p: Page) {
    && |d| == PAGE_SIZE
    && Room(p) >= 0
    && Int32At(d, 16) == FreePointer(p)
    && Int32At(d, 20) == |p.slots|
    && (forall i {:trigger SlotAt(d, i)} :: 0 <= i < |p.slots| ==> SlotAt(d, i) == p.slots[i])
    && d[FreePointer(p)..] == p.tuples
  }

  lemma SlotBeside(d: seq<byte>, k: nat, t: seq<byte>, j: nat)
    requires k + |t| <= |d| && HEADER + 8 * j + 8 <= |d|
    requires k + |t| <= HEADER + 8 * j || HEADER + 8 * j + 8 <= k
    ensures SlotAt(Write(d, k, t), j) == SlotAt(d, j)
  {
    Int32Beside(d, k, t, HEADER + 8 * j);
    Int32Beside(d, k, t, HEADER + 4 + 8 * j);
  }

  // Writing into the link fields or the free space changes nothing.
  lemma PutAside(d: seq<byte>, p: Page, k: nat, t: seq<byte>)
    requires Stands(d, p) && (k + |t| <= 16 || HEADER + 8 * |p.slots| <= k) && k + |t| <= FreePointer(p)
    ensures Stands(Write(d, k, t), p)
  {
    Int32Beside(d, k, t, 16);
    Int32Beside(d, k, t, 20);
    forall i | 0 <= i < |p.slots|
      ensures SlotAt(Write(d, k, t), i) == p.slots[i]
    {
      SlotBeside(d, k, t, i);
    }
    TailBeside(d, k, t, FreePointer(p));
  }

  // Writing the free space pointer.
  lemma PutPointer(d: seq<byte>, p: Page, v: int)
    requires Stands(d, p) && HEADER + 8 * |p.slots| <= v <= PAGE_SIZE
    ensures Stands(Write(d, 16, Encode(v)), Page(p.slots, d[v..]))
  {
    var t := Encode(v);
    Int32Back(d, 16, v);
    Int32Beside(d, 16, t, 20);
    forall i | 0 <= i < |p.slots|
      ensures SlotAt(Write(d, 16, t), i) == p.slots[i]
    {
      SlotBeside(d, 16, t, i);
    }
    TailBeside(d, 16, t, v);
  }

  // Writing bytes of tuples.
  lemma PutTuples(d: seq<byte>, p: Page, k: nat, t: seq<byte>)
    requires Stands(d, p) && FreePointer(p) <= k && k + |t| <= PAGE_SIZE
    ensures Stands(Write(d, k, t), Page(p.slots, Write(p.tuples, k - FreePointer(p), t)))
  {
    Int32Beside(d, k, t, 16);
    Int32Beside(d, k, t, 20);
    forall i | 0 <= i < |p.slots|
      ensures SlotAt(Write(d, k, t), i) == p.slots[i]
    {
      SlotBeside(d, k, t, i);
    }
    TailWrite(d, k, t, FreePointer(p));
  }

  // Writing anywhere behind the slots leaves slots and pointer alone.
  lemma PutBehind(d: seq<byte>, p: Page, k: nat, t: seq<byte>)
    requires Stands(d, p) && HEADER + 8 * |p.slots| <= k && k + |t| <= PAGE_SIZE
    ensures Stands(Write(d, k, t), Page(p.slots, Write(d, k, t)[FreePointer(p)..]))
  {
    Int32Beside(d, k, t, 16);
    Int32Beside(d, k, t, 20);
    forall i | 0 <= i < |p.slots|
      ensures SlotAt(Write(d, k, t), i) == p.slots[i]
    {
      SlotBeside(d, k, t, i);
    }
  }

  // Moving the bytes before a tuple and writing over the tuple.
  lemma MoveAndWrite(d: seq<byte>, p: Page, at: int, n: nat, t: seq<byte>)
    requires |d| == PAGE_SIZE && 0 <= FreePointer(p) <= at && at + n <= PAGE_SIZE && 0 <= FreePointer(p) + n - |t|
    requires d[FreePointer(p)..] == p.tuples
    ensures var f, o := FreePointer(p), at - FreePointer(p);
      var d1 := Write(d, f + n - |t|, d[f..at]);
      Write(d1[f + n - |t|..], o, t) == p.tuples[..o] + t + p.tuples[o + n..]
  {
    var f, o := FreePointer(p), at - FreePointer(p);
    var v := f + n - |t|;
    var d1 := Write(d, v, d[f..at]);
    assert d1[v..] == d[f..at] + d[v + o..];
    assert d[f..at] == p.tuples[..o];
    assert d[v + o..][|t|..] == d[at + n..] == p.tuples[o + n..];
  }

  // Writing a field of a slot changes that slot.
  lemma PutSlot(d: seq<byte>, p: Page, i: nat, v: int32, size: bool)
    requires Stands(d, p) && i < |p.slots|
    ensures var k := HEADER + 8 * i + (if size then 4 else 0);
      Stands(Write(d, k, Encode(v)), p.(slots := p.slots[i :=
        if size then p.slots[i].(size := v) else p.slots[i].(offset := v)]))
  {
    var k := HEADER + 8 * i + (if size then 4 else 0);
    var t := Encode(v);
    Int32Beside(d, k, t, 16);
    Int32Beside(d, k, t, 20);
    forall j | 0 <= j < |p.slots|
      ensures SlotAt(Write(d, k, t), j) == if j != i then p.slots[j]
        else if size then p.slots[i].(size := v) else p.slots[i].(offset := v)
    {
      assert SlotAt(d, j) == p.slots[j];
      if j != i { SlotBeside(d, k, t, j); } else { SlotAfter(d, i, v, size); }
    }
    TailBeside(d, k, t, FreePointer(p));
  }

  lemma SlotAfter(d: seq<byte>, i: nat, v: int32, size: bool)
    requires HEADER + 8 * i + 8 <= |d|
    ensures var k := HEADER + 8 * i + (if size then 4 else 0);
      SlotAt(Write(d, k, Encode(v)), i) == if size then SlotAt(d, i).(size := v) else SlotAt(d, i).(offset := v)
  {
    var k := HEADER + 8 * i + (if size then 4 else 0);
    Int32Back(d, k, v);
    Int32Beside(d, k, Encode(v), if size then k - 4 else k + 4);
  }

  // Counting one slot more brings up the one written behind the last.
  lemma PutCount(d: seq<byte>, p: Page)
    requires Stands(d, p) && Room(p) >= 8
    ensures Stands(Write(d, 20, Encode(|p.slots| + 1)), p.(slots := p.slots + [SlotAt(d, |p.slots|)]))
  {
    var t := Encode(|p.slots| + 1);
    Int32Beside(d, 20, t, 16);
    Int32Back(d, 20, |p.slots| + 1);
    forall j | 0 <= j < |p.slots| + 1
      ensures SlotAt(Write(d, 20, t), j) == (p.slots + [SlotAt(d, |p.slots|)])[j]
    {
      SlotBeside(d, 20, t, j);
    }
    TailBeside(d, 20, t, FreePointer(p));
  }

  // The next slot, written field by field and then counted.
  lemma AppendSlot(d0: seq<byte>, d1: seq<byte>, d2: seq<byte>, p: Page, offset: int32, size: int32)
    requires Stands(d0, p) && Room(p) >= 8
    requires d1 == Write(d0, HEADER + 8 * |p.slots|, Encode(offset))
    requires d2 == Write(d1, HEADER + 4 + 8 * |p.slots|, Encode(size))
    ensures Stands(Write(d2, 20, Encode(|p.slots| + 1)), p.(slots := p.slots + [Slot(offset, size)]))
  {
    var n := |p.slots|;
    PutAside(d0, p, HEADER + 8 * n, Encode(offset));
    SlotAfter(d0, n, offset, false);
    PutAside(d1, p, HEADER + 4 + 8 * n, Encode(size));
    SlotAfter(d1, n, size, true);
    PutCount(d2, p);
  }

  lemma InitWrites(d0: seq<byte>, d1: seq<byte>, pointer: int32, count: int32, p: Page)
    requires |d0| == PAGE_SIZE && pointer == PAGE_SIZE && count == 0 && p.slots == [] && p.tuples == []
    requires d1 == Write(d0, 16, Encode(pointer))
    ensures Stands(Write(d1, 20, Encode(count)), p)
  {
    Int32Back(d0, 16, pointer);
    Int32Beside(d1, 20, Encode(count), 16);
    Int32Back(d1, 20, count);
    EmptyStands(Write(d1, 20, Encode(count)), p);
  }

  lemma EmptyStands(d: seq<byte>, p: Page)
    requires |d| == PAGE_SIZE && Int32At(d, 16) == PAGE_SIZE && Int32At(d, 20) == 0 && p.slots == [] && p.tuples == []
    ensures Stands(d, p)
  {
  }

  // The links in front of the header are as they were.
  lemma SameLinks(d: seq<byte>, d': seq<byte>, k: nat)
    requires |d| >= 16 && |d'| >= 16 && d[..16] == d'[..16] && k + 4 <= 16
    ensures Int32At(d', k) == Int32At(d, k)
  {
    Within(d, 0, 16, k, k + 4);
    Within(d', 0, 16, k, k + 4);
  }
}
