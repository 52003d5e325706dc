/**
 A slotted table page as a value: a slot array that grows from the front and tuples
 stored back to back at the end.  Insert, update and delete all replace one run of
 tuple bytes by another, so one relation, `Spliced`, carries their proofs.
 */
module TablePageLayout {
  import opened Bytes

  const PAGE_SIZE := 512
  const HEADER := 24

  datatype Slot = Slot(offset: int, size: int)

  // `tuples` are the bytes from the free space pointer to the end of the page.
  datatype Page = Page(slots: seq<Slot>, tuples: seq<byte>)

  // A slot is empty, holds a tuple, or holds one that is marked as deleted.
  datatype Item = Empty | Live(bytes: seq<byte>) | Marked(bytes: seq<byte>)

  function FreePointer(p: Page): int {
    PAGE_SIZE - |p.tuples|
  }

  function Room(p: Page): int {
    FreePointer(p) - HEADER - 8 * |p.slots|
  }

  function Len(s: Slot): nat {
    if s.size < 0 then -s.size else s.size
  }

  function Total(slots: seq<Slot>): nat {
    if slots == [] then 0 else Len(slots[0]) + Total(slots[1..])
  }

  // ----- Well-formed pages -----

  ghost predicate Holds(p: Page, i: int, x: int) {
    0 <= i < |p.slots| && p.slots[i].offset <= x < p.slots[i].offset + Len(p.slots[i])
  }

  ghost predicate InPage(p: Page, i: nat)
    requires i < |p.slots|
  {
    p.slots[i].size != 0 ==>
      FreePointer(p) <= p.slots[i].offset && p.slots[i].offset + Len(p.slots[i]) <= PAGE_SIZE
  }

  ghost predicate Apart(p: Page, i: nat, j: nat)
    requires i < |p.slots| && j < |p.slots|
  {
    i != j && p.slots[i].size != 0 && p.slots[j].size != 0 ==>
      || p.slots[i].offset + Len(p.slots[i]) <= p.slots[j].offset
      || p.slots[j].offset + Len(p.slots[j]) <= p.slots[i].offset
  }

  ghost predicate Covered(p: Page, x: int) {
    exists i :: Holds(p, i, x)
  }

  /** The slot array ends before the tuples, the tuples named by slots do not overlap, and
      they fill the page up to its end. */
  ghost predicate WellFormed(p: Page) {
    && Room(p) >= 0
    && (forall i {:trigger InPage(p, i)} :: 0 <= i < |p.slots| ==> InPage(p, i))
    && (forall i, j {:trigger Apart(p, i, j)} :: 0 <= i < |p.slots| && 0 <= j < |p.slots| ==> Apart(p, i, j))
    && (forall x {:trigger Covered(p, x)} :: FreePointer(p) <= x < PAGE_SIZE ==> Covered(p, x))
    && Total(p.slots) == |p.tuples|
  }

  function BytesAt(p: Page, s: Slot): seq<byte>
    requires s.size != 0 ==> FreePointer(p) <= s.offset && s.offset + Len(s) <= PAGE_SIZE
  {
    if s.size == 0 then [] else p.tuples[s.offset - FreePointer(p)..s.offset - FreePointer(p) + Len(s)]
  }

  function ItemAt(p: Page, i: nat): Item
    requires i < |p.slots| && InPage(p, i)
  {
    var s := p.slots[i];
    if s.size == 0 then Empty else if s.size > 0 then Live(BytesAt(p, s)) else Marked(BytesAt(p, s))
  }

  // What a page holds, slot by slot.
  ghost function Items(p: Page): (items: seq<Item>)
    requires WellFormed(p)
    ensures |items| == |p.slots|
    ensures forall i :: 0 <= i < |items| ==> InPage(p, i) && items[i] == ItemAt(p, i)
  {
    assert forall i :: 0 <= i < |p.slots| ==> InPage(p, i);
    seq(|p.slots|, i requires 0 <= i < |p.slots| => ItemAt(p, i))
  }

  // ----- Totals -----

  lemma {:induction false} TotalUpdate(slots: seq<Slot>, i: nat, s: Slot)
    requires i < |slots|
    ensures Total(slots[i := s]) == Total(slots) - Len(slots[i]) + Len(s)
  {
    if i > 0 {
      TotalUpdate(slots[1..], i - 1, s);
      assert slots[i := s][1..] == slots[1..][i - 1 := s];
    } else {
      assert slots[i := s][1..] == slots[1..];
    }
  }

  lemma {:induction false} TotalAppend(slots: seq<Slot>, s: Slot)
    ensures Total(slots + [s]) == Total(slots) + Len(s)
  {
    if slots != [] {
      TotalAppend(slots[1..], s);
      assert (slots + [s])[1..] == slots[1..] + [s];
    } else {
      assert (slots + [s])[1..] == [];
    }
  }

  lemma {:induction false} TotalSame(a: seq<Slot>, b: seq<Slot>)
    requires |a| == |b| && forall i :: 0 <= i < |a| ==> Len(a[i]) == Len(b[i])
    ensures Total(a) == Total(b)
  {
    if a != [] {
      TotalSame(a[1..], b[1..]);
    }
  }

  // ----- Replacing one run of bytes -----

  // The bytes of `i` in `p`, `old` many and starting at `at`, become `t`; tuples stored
  // before them move so that all ends stay where they were.
  ghost predicate Spliced(p: Page, p': Page, i: nat, at: int, old_: nat, t: seq<byte>) {
    && FreePointer(p) <= at && at + old_ <= PAGE_SIZE
    && p'.tuples == p.tuples[..at - FreePointer(p)] + t + p.tuples[at - FreePointer(p) + old_..]
    && i <= |p.slots| && |p'.slots| == (if i == |p.slots| then i + 1 else |p.slots|)
    && (if i < |p.slots| && p.slots[i].size != 0 then at == p.slots[i].offset && old_ == Len(p.slots[i])
        else at == FreePointer(p) && old_ == 0)
    && p'.slots[i].size == |t| && (t != [] ==> p'.slots[i].offset == at + old_ - |t|)
    && forall j {:trigger Follows(p, p', j, at, old_, |t|)} :: 0 <= j < |p.slots| && j != i ==> Follows(p, p', j, at, old_, |t|)
  }

  ghost predicate Follows(p: Page, p': Page, j: nat, at: int, old_: nat, new_: nat)
    requires j < |p.slots| && j < |p'.slots|
  {
    && p'.slots[j].size == p.slots[j].size
    && (p.slots[j].size != 0 ==>
          p'.slots[j].offset == if p.slots[j].offset < at then p.slots[j].offset + old_ - new_ else p.slots[j].offset)
  }

  // Another tuple lies wholly before the replaced bytes or wholly after them.
  lemma Beside(p: Page, p': Page, i: nat, at: int, old_: nat, t: seq<byte>, j: nat)
    requires WellFormed(p) && Spliced(p, p', i, at, old_, t) && j < |p.slots| && j != i
    ensures InPage(p, j) && p'.slots[j].size == p.slots[j].size
    ensures p.slots[j].size != 0 ==>
      || (p.slots[j].offset + Len(p.slots[j]) <= at && p'.slots[j].offset == p.slots[j].offset + old_ - |t|)
      || (at + old_ <= p.slots[j].offset && p'.slots[j].offset == p.slots[j].offset)
  {
    assert InPage(p, j);
    assert Follows(p, p', j, at, old_, |t|);
    if i < |p.slots| { assert Apart(p, i, j); }
  }

  lemma SplicedCovered(p: Page, p': Page, i: nat, at: int, old_: nat, t: seq<byte>, x: int)
    requires WellFormed(p) && Spliced(p, p', i, at, old_, t) && FreePointer(p') <= x < PAGE_SIZE
    ensures Covered(p', x)
  {
    if at + old_ - |t| <= x < at + old_ {
      assert Holds(p', i, x);
    } else {
      var y := if x < at + old_ then x - (old_ - |t|) else x;
      assert Covered(p, y);
      var j :| Holds(p, j, y);
      assert j != i;
      Beside(p, p', i, at, old_, t, j);
      assert Holds(p', j, x);
    }
  }

  lemma SplicedTotal(p: Page, p': Page, i: nat, at: int, old_: nat, t: seq<byte>)
    requires WellFormed(p) && Spliced(p, p', i, at, old_, t)
    ensures Total(p'.slots) == |p'.tuples|
  {
    var s := p'.slots[i];
    forall j | 0 <= j < |p.slots| && j != i
      ensures Len(p'.slots[j]) == Len(p.slots[j])
    {
      assert Follows(p, p', j, at, old_, |t|);
    }
    if i < |p.slots| {
      TotalUpdate(p.slots, i, s);
      TotalSame(p'.slots, p.slots[i := s]);
    } else {
      TotalAppend(p.slots, s);
      TotalSame(p'.slots, p.slots + [s]);
    }
  }

  /** Replacing bytes keeps the page well formed if there is room. */
  lemma SpliceKeeps(p: Page, p': Page, i: nat, at: int, old_: nat, t: seq<byte>)
    requires WellFormed(p) && Spliced(p, p', i, at, old_, t) && Room(p') >= 0
    ensures WellFormed(p')
  {
    SplicedTotal(p, p', i, at, old_, t);
    forall j | 0 <= j < |p'.slots|
      ensures InPage(p', j)
    {
      if j != i { Beside(p, p', i, at, old_, t, j); }
    }
    forall j, k | 0 <= j < |p'.slots| && 0 <= k < |p'.slots|
      ensures Apart(p', j, k)
    {
      if j != i { Beside(p, p', i, at, old_, t, j); }
      if k != i { Beside(p, p', i, at, old_, t, k); }
      if j != i && k != i { assert Apart(p, j, k); }
    }
    forall x | FreePointer(p') <= x < PAGE_SIZE
      ensures Covered(p', x)
    {
      SplicedCovered(p, p', i, at, old_, t, x);
    }
  }

  lemma SliceBeside(s: seq<byte>, a: nat, n: nat, t: seq<byte>, o: nat, len: nat)
    requires a + n <= |s| && o + len <= |s|
    ensures o + len <= a ==> (s[..a] + t + s[a + n..])[o..o + len] == s[o..o + len]
    ensures a + n <= o ==> (s[..a] + t + s[a + n..])[o - n + |t|..o - n + |t| + len] == s[o..o + len]
  {
  }

  // The bytes of another tuple are where its new offset says.
  lemma BytesMove(p: Page, p': Page, at: nat, n: nat, t: seq<byte>, s: Slot, s': Slot)
    requires FreePointer(p) <= at && at + n <= PAGE_SIZE
    requires p'.tuples == p.tuples[..at - FreePointer(p)] + t + p.tuples[at - FreePointer(p) + n..]
    requires s'.size == s.size && s.size != 0 && FreePointer(p) <= s.offset && s.offset + Len(s) <= PAGE_SIZE
    requires
      || (s.offset + Len(s) <= at && s'.offset == s.offset + n - |t|)
      || (at + n <= s.offset && s'.offset == s.offset)
    ensures FreePointer(p') <= s'.offset && s'.offset + Len(s') <= PAGE_SIZE && BytesAt(p', s') == BytesAt(p, s)
  {
    var a, o := at - FreePointer(p), s.offset - FreePointer(p);
    SliceBeside(p.tuples, a, n, t, o, Len(s));
    assert FreePointer(p') == FreePointer(p) + n - |t|;
  }

  lemma SplicedItem(p: Page, p': Page, i: nat, at: int, old_: nat, t: seq<byte>, j: nat)
    requires WellFormed(p) && Spliced(p, p', i, at, old_, t) && WellFormed(p') && j < |p'.slots|
    ensures InPage(p', j)
    ensures ItemAt(p', j) == if j != i then Items(p)[j] else if t == [] then Empty else Live(t)
  {
    assert InPage(p', j);
    if j != i {
      assert InPage(p, j) && Follows(p, p', j, at, old_, |t|);
      Beside(p, p', i, at, old_, t, j);
      if p.slots[j].size != 0 { BytesMove(p, p', at, old_, t, p.slots[j], p'.slots[j]); }
    } else if t != [] {
      assert BytesAt(p', p'.slots[i]) == t;
    }
  }

  /** and changes what one slot holds, nothing else. */
  lemma SpliceItems(p: Page, p': Page, i: nat, at: int, old_: nat, t: seq<byte>)
    requires WellFormed(p) && Spliced(p, p', i, at, old_, t) && WellFormed(p')
    ensures var item := if t == [] then Empty else Live(t);
      Items(p') == if i < |p.slots| then Items(p)[i := item] else Items(p) + [item]
  {
    forall j | 0 <= j < |p'.slots|
      ensures Items(p')[j] == if j != i then Items(p)[j] else if t == [] then Empty else Live(t)
    {
      SplicedItem(p, p', i, at, old_, t, j);
    }
  }

  /** Replacing bytes keeps the order in which tuples are stored. */
  lemma SplicedOrder(p: Page, p': Page, i: nat, at: int, old_: nat, t: seq<byte>, j: nat, k: nat)
    requires WellFormed(p) && Spliced(p, p', i, at, old_, t) && j < |p.slots| && k < |p.slots|
    requires p.slots[j].size != 0 && p.slots[k].size != 0 && p'.slots[j].size != 0 && p'.slots[k].size != 0
    ensures p.slots[j].offset < p.slots[k].offset <==> p'.slots[j].offset < p'.slots[k].offset
  {
    if j != i { Beside(p, p', i, at, old_, t, j); }
    if k != i { Beside(p, p', i, at, old_, t, k); }
  }
}
