/**
 A table as a chain of pages, linked by the page ids in their bytes.  An insert walks the
 chain from its first page and takes the first one with room, or adds a page at the end.
 */
module TableHeaps {
  import opened Bytes
  import opened TablePageLayout
  import opened TablePageOperations
  import opened TablePageBytes
  import opened TablePageRoom
  import opened TablePages

  // What the bytes of a page stand for: its id, its links and its tuples.
  datatype HeapPage = HeapPage(id: int, prev: int, next: int, page: Page)

  lemma EmptyPage(p: Page)
    requires p.slots == [] && p.tuples == []
    ensures WellFormed(p)
    ensures forall t :: CanInsert(p, t) <==> |t| + 32 <= PAGE_SIZE
  {
  }

  lemma OneTuple(t: seq<byte>)
    requires t != []
    ensures Storable([Live(t)]) <==> |t| + 32 <= PAGE_SIZE
  {
    var p := Page([], []);
    EmptyPage(p);
    InsertFitsIff(p, t);
    assert WithTuple(Items(p), t) == [Live(t)];
  }

  // ----- The chain as a value -----

  // Page `i` of the chain is linked to its neighbours and well formed.
  ghost predicate LinkOk(pages: map<int, HeapPage>, chain: seq<int>, nextId: int, i: nat)
    requires i < |chain|
  {
    && chain[i] in pages
    && 0 <= chain[i] < nextId
    && pages[chain[i]].id == chain[i]
    && pages[chain[i]].next == (if i + 1 < |chain| then chain[i + 1] else INVALID_PAGE_ID)
    && pages[chain[i]].prev == (if i > 0 then chain[i - 1] else INVALID_PAGE_ID)
    && WellFormed(pages[chain[i]].page)
  }

  ghost predicate Linked(pages: map<int, HeapPage>, chain: seq<int>, nextId: int) {
    && chain != [] && nextId >= 0
    && (forall i, j :: 0 <= i < j < |chain| ==> chain[i] != chain[j])
    && (forall i {:trigger LinkOk(pages, chain, nextId, i)} :: 0 <= i < |chain| ==> LinkOk(pages, chain, nextId, i))
    && (forall id :: id in pages ==> id in chain)
  }

  lemma StoreKeeps(pages: map<int, HeapPage>, chain: seq<int>, nextId: int, at: nat, page: Page)
    requires Linked(pages, chain, nextId) && at < |chain| && chain[at] in pages && WellFormed(page)
    ensures Linked(pages[chain[at] := pages[chain[at]].(page := page)], chain, nextId)
  {
    var pages' := pages[chain[at] := pages[chain[at]].(page := page)];
    forall i | 0 <= i < |chain|
      ensures LinkOk(pages', chain, nextId, i)
    {
      assert LinkOk(pages, chain, nextId, i);
    }
  }

  lemma StoreRefines(pages: map<int, HeapPage>, pages': map<int, HeapPage>, chain: seq<int>, nextId: int, at: nat, t: seq<byte>)
    requires Linked(pages, chain, nextId) && at < |chain| && chain[at] in pages
    requires t != [] && CanInsert(pages[chain[at]].page, t)
    requires pages' == pages[chain[at] := pages[chain[at]].(page := Inserted(pages[chain[at]].page, t))]
    ensures Linked(pages', chain, nextId) && StoredIn(pages, pages', chain[at], t)
    ensures Holding(pages'[chain[at]].page, FreeSlot(pages[chain[at]].page.slots), t)
  {
    assert LinkOk(pages, chain, nextId, at);
    InsertRefines(pages[chain[at]].page, t);
    StoreKeeps(pages, chain, nextId, at, Inserted(pages[chain[at]].page, t));
  }

  ghost predicate Holding(p: Page, slot: nat, t: seq<byte>) {
    WellFormed(p) && slot < |p.slots| && Items(p)[slot] == Live(t)
  }

  // `pages'` has a new last page behind the old one.
  ghost predicate Added(pages: map<int, HeapPage>, pages': map<int, HeapPage>, last: int, id: int, page: Page) {
    && last in pages && id !in pages
    && pages'.Keys == pages.Keys + {id}
    && pages'[id] == HeapPage(id, last, INVALID_PAGE_ID, page)
    && pages'[last] == pages[last].(next := id)
    && forall x :: x in pages && x != last ==> pages'[x] == pages[x]
  }

  lemma AddedLink(pages: map<int, HeapPage>, pages': map<int, HeapPage>, chain: seq<int>, id: int, page: Page, i: nat)
    requires Linked(pages, chain, id) && Added(pages, pages', chain[|chain| - 1], id, page) && i < |chain|
    ensures chain[i] < id && LinkOk(pages', chain + [id], id + 1, i)
  {
    assert LinkOk(pages, chain, id, i);
  }

  lemma AddKeeps(pages: map<int, HeapPage>, pages': map<int, HeapPage>, chain: seq<int>, id: int, page: Page)
    requires Linked(pages, chain, id) && Added(pages, pages', chain[|chain| - 1], id, page) && WellFormed(page)
    ensures Linked(pages', chain + [id], id + 1)
  {
    var chain' := chain + [id];
    forall i | 0 <= i < |chain'|
      ensures chain'[i] <= id && (chain'[i] == id <==> i == |chain|) && LinkOk(pages', chain', id + 1, i)
    {
      if i < |chain| { AddedLink(pages, pages', chain, id, page, i); }
    }
    AddedKeys(pages, pages', chain, id, page);
  }

  // The chain still names all pages.
  lemma AddedKeys(pages: map<int, HeapPage>, pages': map<int, HeapPage>, chain: seq<int>, id: int, page: Page)
    requires chain != [] && Added(pages, pages', chain[|chain| - 1], id, page) && forall x :: x in pages ==> x in chain
    ensures forall x :: x in pages' ==> x in chain + [id]
  {
  }

  lemma FreshId(pages: map<int, HeapPage>, chain: seq<int>, id: int)
    requires Linked(pages, chain, id)
    ensures id !in pages && chain[|chain| - 1] in pages
  {
    assert LinkOk(pages, chain, id, |chain| - 1);
    forall i | 0 <= i < |chain|
      ensures chain[i] != id
    {
      assert LinkOk(pages, chain, id, i);
    }
  }

  // ----- The search -----

  // The search goes past page `id`: the buffer pool has a frame for it, and it is too full.
  ghost predicate Passes(pages: map<int, HeapPage>, framed: set<int>, t: seq<byte>, id: int) {
    id in pages && id in framed && !CanInsert(pages[id].page, t)
  }

  // The place in the chain where the search stops, or its length.
  ghost function Stop(pages: map<int, HeapPage>, chain: seq<int>, framed: set<int>, t: seq<byte>, from: nat): (at: nat)
    requires from <= |chain|
    ensures from <= at <= |chain|
    ensures forall j :: from <= j < at ==> Passes(pages, framed, t, chain[j])
    ensures at < |chain| ==> !Passes(pages, framed, t, chain[at])
    decreases |chain| - from
  {
    if from < |chain| && Passes(pages, framed, t, chain[from]) then Stop(pages, chain, framed, t, from + 1) else from
  }

  // The search has passed the places before `at`.
  ghost predicate Passed(pages: map<int, HeapPage>, chain: seq<int>, framed: set<int>, t: seq<byte>, at: nat) {
    at <= |chain| && forall j :: 0 <= j < at ==> Passes(pages, framed, t, chain[j])
  }

  lemma StopIs(pages: map<int, HeapPage>, chain: seq<int>, framed: set<int>, t: seq<byte>, at: nat)
    requires Passed(pages, chain, framed, t, at) && (at < |chain| ==> !Passes(pages, framed, t, chain[at]))
    ensures Stop(pages, chain, framed, t, 0) == at
  {
  }

  // The heap with the tuple in page `id`, which is one of the heap or a new empty one.
  ghost predicate StoredIn(pages: map<int, HeapPage>, pages': map<int, HeapPage>, id: int, t: seq<byte>) {
    && id in pages' && pages'.Keys == pages.Keys + {id}
    && (id in pages ==> CanInsert(pages[id].page, t))
    && pages'[id].page == Inserted(if id in pages then pages[id].page else Page([], []), t)
    && forall x :: x in pages && x != id ==> pages'[x].page == pages[x].page
  }

  // What an insert reports: the record id, an aborted transaction, or the use of a page
  // for which there was no frame.
  datatype InsertResult = InsertedAt(pageId: int, slot: nat) | Aborted | NullPage

  /** The search stops at the first page that has room or no frame.  It aborts if the tuple
      does not fit a page, if there is no frame for the first page, or if it passes all pages and
      there is no frame for a new one; it uses a null page if a later one has no frame. */
  ghost predicate Outcome(pages: map<int, HeapPage>, chain: seq<int>, nextId: int, framed: set<int>, created: bool, t: seq<byte>, fits: bool,
                          r: InsertResult, pages': map<int, HeapPage>, chain': seq<int>)
    requires chain != []
  {
    var at := Stop(pages, chain, framed, t, 0);
    && (r.Aborted? <==> !fits || chain[0] !in framed || (at == |chain| && !created))
    && (r.NullPage? <==> fits && 0 < at < |chain| && chain[at] !in framed)
    && (!r.InsertedAt? ==> pages' == pages && chain' == chain)
    && (r.InsertedAt? ==>
          && chain' == (if at < |chain| then chain else chain + [nextId]) && chain'[at] == r.pageId
          && StoredIn(pages, pages', r.pageId, t)
          && Holding(pages'[r.pageId].page, r.slot, t))
  }

  // One try: the page takes the tuple if it has room.
  ghost predicate Tried(pages: map<int, HeapPage>, pages': map<int, HeapPage>, id: int, t: seq<byte>, ok: bool, slot: nat) {
    && id in pages && ok == CanInsert(pages[id].page, t)
    && if ok then StoredIn(pages, pages', id, t) && Holding(pages'[id].page, slot, t) else pages' == pages
  }

  lemma TriedOutcome(pages: map<int, HeapPage>, chain: seq<int>, nextId: int, framed: set<int>, created: bool, t: seq<byte>,
                     at: nat, r: InsertResult, pages': map<int, HeapPage>)
    requires at < |chain| && Passed(pages, chain, framed, t, at) && r.InsertedAt? && chain[at] == r.pageId && r.pageId in framed
    requires Tried(pages, pages', r.pageId, t, true, r.slot) && chain[0] in framed
    ensures Outcome(pages, chain, nextId, framed, created, t, true, r, pages', chain)
  {
    StopIs(pages, chain, framed, t, at);
  }

  lemma NullOutcome(pages: map<int, HeapPage>, chain: seq<int>, nextId: int, framed: set<int>, created: bool, t: seq<byte>, at: nat)
    requires 0 < at < |chain| && Passed(pages, chain, framed, t, at) && chain[at] !in framed
    ensures Outcome(pages, chain, nextId, framed, created, t, true, NullPage, pages, chain)
  {
    assert Passes(pages, framed, t, chain[0]);
    StopIs(pages, chain, framed, t, at);
  }

  // ----- The heap -----

  ghost function View(p: TablePage): HeapPage
    requires p.data.Length == PAGE_SIZE
    reads p, p.data
  {
    HeapPage(Int32At(p.data[..], 0), Int32At(p.data[..], 8), Int32At(p.data[..], 12), p.page)
  }

  // Inserts into the bytes of one page; its id and links stay.
  method PutTuple(p: TablePage, t: seq<byte>) returns (ok: bool, slot: nat)
    requires p.Valid() && t != []
    modifies p.data, p`page
    ensures p.Valid() && ok == CanInsert(old(p.page), t)
    ensures View(p) == if ok then old(View(p)).(page := Inserted(old(p.page), t)) else old(View(p))
    ensures ok ==> slot == FreeSlot(old(p.page).slots)
  {
    ghost var d := p.data[..];
    ok, slot := p.InsertTuple(t);
    SameLinks(d, p.data[..], 0);
    SameLinks(d, p.data[..], 8);
    SameLinks(d, p.data[..], 12);
  }

  method NewPage(id: int32, prev: int32) returns (p: TablePage)
    ensures fresh(p) && fresh(p.data) && PageStands(p, HeapPage(id, prev, INVALID_PAGE_ID, Page([], [])))
  {
    p := new TablePage();
    p.Init(id, prev);
  }

  ghost predicate PageStands(p: TablePage, v: HeapPage)
    reads p, p.data
  {
    p.Valid() && View(p) == v
  }

  // Every page has its own bytes.
  ghost predicate Separate(pages: map<int, TablePage>, a: int, b: int)
    requires a in pages && b in pages
  {
    a != b ==> pages[a] != pages[b] && pages[a].data != pages[b].data
  }

  class TableHeap {
    const first: int
    // The pages by their ids, as the buffer pool has them.
    var pages: map<int, TablePage>
    var nextId: int
    // What the pages stand for, and their ids in the order of the links.
    ghost var views: map<int, HeapPage>
    ghost var chain: seq<int>

    // The pages and their bytes.
    ghost var Repr: set<object>

    ghost predicate Owns(id: int)
      requires id in pages
      reads `pages, `Repr
    {
      pages[id] in Repr && pages[id].data in Repr
    }

    // The bytes stand for the views.
    ghost predicate Rep()
      reads `pages, `views, `Repr, Repr
    {
      && this !in Repr && views.Keys == pages.Keys
      && (forall id {:trigger Owns(id)} :: id in pages ==> Owns(id))
      && (forall id {:trigger PageStands(pages[id], views[id])} :: id in pages ==> Owns(id) && PageStands(pages[id], views[id]))
      && (forall a, b {:trigger Separate(pages, a, b)} :: a in pages && b in pages ==> Separate(pages, a, b))
    }

    ghost predicate Valid()
      reads this, Repr
    {
      Rep() && Linked(views, chain, nextId) && chain[0] == first
    }

    constructor ()
      ensures Valid() && fresh(Repr) && chain == [0] && views == map[0 := HeapPage(0, INVALID_PAGE_ID, INVALID_PAGE_ID, Page([], []))]
    {
      var p := NewPage(0, INVALID_PAGE_ID);
      EmptyPage(p.page);
      first, nextId := 0, 1;
      pages := map[0 := p];
      views := map[0 := View(p)];
      chain := [0];
      Repr := {p, p.data};
      new;
      assert Owns(0) && PageStands(pages[0], views[0]) && LinkOk(views, chain, nextId, 0);
    }

    // One try of the search: the page takes the tuple if it has room.
    method TryInsert(pageId: int, ghost at: nat, t: seq<byte>) returns (ok: bool, slot: nat)
      requires Valid() && t != [] && at < |chain| && chain[at] == pageId && pageId in pages
      modifies `views, pages[pageId], pages[pageId].data
      ensures Valid() && Tried(old(views), views, pageId, t, ok, slot)
    {
      ghost var was := views;
      ok, slot := StoreTuple(pageId, t);
      if ok { StoreRefines(was, views, chain, nextId, at, t); }
    }

    method StoreTuple(pageId: int, t: seq<byte>) returns (ok: bool, slot: nat)
      requires Rep() && t != [] && pageId in pages
      modifies `views, pages[pageId], pages[pageId].data
      ensures Rep() && ok == CanInsert(old(views)[pageId].page, t)
      ensures views == if ok then old(views)[pageId := old(views)[pageId].(page := Inserted(old(views)[pageId].page, t))] else old(views)
      ensures ok ==> slot == FreeSlot(old(views)[pageId].page.slots)
    {
      assert Owns(pageId) && PageStands(pages[pageId], views[pageId]);
      ok, slot := PutTuple(pages[pageId], t);
      if ok { views := views[pageId := views[pageId].(page := Inserted(views[pageId].page, t))]; }
      forall id | id in pages
        ensures Owns(id) && PageStands(pages[id], views[id])
      {
        assert old(Owns(id)) && Separate(pages, id, pageId) && old(PageStands(pages[id], views[id]));
      }
    }

    // Links a new page behind the last one.
    method AddPage(last: int) returns (id: int)
      requires Valid() && last == chain[|chain| - 1] && nextId < 0x8000_0000
      modifies this, Repr
      ensures Valid() && fresh(Repr - old(Repr))
      ensures id == old(nextId) && chain == old(chain) + [id] && Added(old(views), views, last, id, Page([], []))
    {
      ghost var was := views;
      FreshId(was, chain, nextId);
      assert LinkOk(was, chain, nextId, |chain| - 1);
      id := nextId;
      assert Owns(last);
      LinkNew(last, id);
      EmptyPage(views[id].page);
      AddKeeps(was, views, chain, id, views[id].page);
      nextId, chain := nextId + 1, chain + [id];
    }

    method LinkNew(last: int32, id: int32)
      requires Rep() && last in pages && id !in pages
      modifies `pages, `views, `Repr, pages[last].data
      ensures Rep() && fresh(Repr - old(Repr))
      ensures views == old(views)[last := old(views)[last].(next := id)][id := HeapPage(id, last, INVALID_PAGE_ID, Page([], []))]
    {
      var p := NewPage(id, last);
      SetNext(last, id);
      Include(id, p);
    }

    method SetNext(last: int, next: int32)
      requires Rep() && last in pages
      modifies `views, pages[last].data
      ensures Rep() && views == old(views)[last := old(views)[last].(next := next)]
    {
      assert Owns(last) && PageStands(pages[last], views[last]);
      pages[last].SetNextPageId(next);
      views := views[last := views[last].(next := next)];
      forall id | id in pages
        ensures Owns(id) && PageStands(pages[id], views[id])
      {
        assert old(Owns(id)) && Separate(pages, id, last) && old(PageStands(pages[id], views[id]));
      }
    }

    method Include(id: int, p: TablePage)
      requires Rep() && id !in pages && p.Valid() && p !in Repr && p.data !in Repr
      modifies `pages, `views, `Repr
      ensures Rep() && pages == old(pages)[id := p] && views == old(views)[id := View(p)] && Repr == old(Repr) + {p, p.data}
    {
      ghost var was := pages;
      pages, views, Repr := pages[id := p], views[id := View(p)], Repr + {p, p.data};
      forall x | x in pages
        ensures Owns(x) && PageStands(pages[x], views[x])
      {
        assert x != id ==> old(Owns(x)) && old(PageStands(pages[x], views[x]));
      }
      forall a, b | a in pages && b in pages
        ensures Separate(pages, a, b)
      {
        assert a != id ==> old(Owns(a));
        assert b != id ==> old(Owns(b));
        assert a in was && b in was ==> Separate(was, a, b);
      }
    }

    /** The search for room, with the pages for which the buffer pool has a frame, and
        whether it has one for a new page. */
    method InsertTuple(t: seq<byte>, framed: set<int>, created: bool) returns (r: InsertResult)
      requires Valid() && t != [] && (created ==> nextId < 0x8000_0000)
      modifies this, Repr
      ensures Valid() && fresh(Repr - old(Repr))
      ensures Outcome(old(views), old(chain), old(nextId), framed, created, t, Storable([Live(t)]), r, views, chain)
    {
      OneTuple(t);
      if |t| + 32 > PAGE_SIZE { return Aborted; }
      if first !in framed { return Aborted; }
      r := Search(t, framed, created);
    }

    method Search(t: seq<byte>, framed: set<int>, created: bool) returns (r: InsertResult)
      requires Valid() && t != [] && (created ==> nextId < 0x8000_0000) && |t| + 32 <= PAGE_SIZE && first in framed
      modifies this, Repr
      ensures Valid() && fresh(Repr - old(Repr))
      ensures Outcome(old(views), old(chain), old(nextId), framed, created, t, true, r, views, chain)
    {
      ghost var at := 0;
      var pageId := first;
      assert LinkOk(views, chain, nextId, 0) && Owns(pageId);
      var ok, slot := TryInsert(pageId, at, t);
      while !ok
        invariant Valid() && pages == old(pages) && Repr == old(Repr) && chain == old(chain) && nextId == old(nextId)
        invariant at < |chain| && chain[at] == pageId && pageId in pages && pageId in framed
        invariant Passed(old(views), chain, framed, t, at) && Tried(old(views), views, pageId, t, ok, slot)
        decreases |chain| - at, !ok
      {
        var next := NextOf(pageId, at);
        at := at + 1;
        if next == INVALID_PAGE_ID {
          r := Extend(pageId, t, framed, created);
          return;
        }
        pageId := next;
        assert Owns(pageId);
        if pageId !in framed {
          NullOutcome(views, chain, nextId, framed, created, t, at);
          return NullPage;
        }
        ok, slot := TryInsert(pageId, at, t);
      }
      r := InsertedAt(pageId, slot);
      TriedOutcome(old(views), chain, nextId, framed, created, t, at, r, views);
    }

    method NextOf(pageId: int, ghost at: nat) returns (next: int32)
      requires Valid() && pageId in pages && at < |chain| && chain[at] == pageId
      ensures next == INVALID_PAGE_ID <==> at + 1 == |chain|
      ensures at + 1 < |chain| ==> next == chain[at + 1] && next in pages
    {
      assert PageStands(pages[pageId], views[pageId]);
      NextPlace(views, chain, nextId, at);
      next := pages[pageId].GetNextPageId();
    }

    // No page of the chain has room.
    method Extend(last: int, t: seq<byte>, ghost framed: set<int>, created: bool) returns (r: InsertResult)
      requires Valid() && last == chain[|chain| - 1] && (created ==> nextId < 0x8000_0000) && t != [] && |t| + 32 <= PAGE_SIZE
      requires Passed(views, chain, framed, t, |chain|)
      modifies this, Repr
      ensures Valid() && fresh(Repr - old(Repr))
      ensures Outcome(old(views), old(chain), old(nextId), framed, created, t, true, r, views, chain)
    {
      StopIs(views, chain, framed, t, |chain|);
      if !created { return Aborted; }
      r := InsertInNew(last, t);
    }

    // Behind the last page, an empty one takes any tuple that the search is made for.
    method InsertInNew(last: int, t: seq<byte>) returns (r: InsertResult)
      requires Valid() && last == chain[|chain| - 1] && nextId < 0x8000_0000 && t != [] && |t| + 32 <= PAGE_SIZE
      modifies this, Repr
      ensures Valid() && fresh(Repr - old(Repr))
      ensures r.InsertedAt? && r.pageId == old(nextId) && chain == old(chain) + [r.pageId]
      ensures r.pageId !in old(views) && StoredIn(old(views), views, r.pageId, t)
      ensures Holding(views[r.pageId].page, r.slot, t)
    {
      var id := AddPage(last);
      EmptyPage(views[id].page);
      assert Owns(id);
      var _, slot := TryInsert(id, |chain| - 1, t);
      r := InsertedAt(id, slot);
    }

    method GetTuple(pageId: int, slot: nat, framed: set<int>) returns (found: bool, t: seq<byte>)
      requires Valid() && pageId in pages
      ensures found <==> pageId in framed && exists u :: Holding(views[pageId].page, slot, u)
      ensures found ==> Holding(views[pageId].page, slot, t)
    {
      if pageId !in framed { return false, []; }
      assert PageStands(pages[pageId], views[pageId]);
      found, t := pages[pageId].GetTuple(slot);
      assert found ==> Holding(views[pageId].page, slot, t);
    }
  }

  lemma NextPlace(pages: map<int, HeapPage>, chain: seq<int>, nextId: int, at: nat)
    requires Linked(pages, chain, nextId) && at < |chain| && chain[at] in pages
    ensures pages[chain[at]].next == INVALID_PAGE_ID <==> at + 1 == |chain|
    ensures at + 1 < |chain| ==> chain[at + 1] == pages[chain[at]].next && chain[at + 1] in pages
  {
    assert LinkOk(pages, chain, nextId, at);
    assert at + 1 < |chain| ==> LinkOk(pages, chain, nextId, at + 1);
  }

  /** A tuple that was inserted reads back from its record id. */
  method InsertAndGet(heap: TableHeap, t: seq<byte>, framed: set<int>, created: bool, framed': set<int>) returns (r: InsertResult, found: bool, u: seq<byte>)
    requires heap.Valid() && t != [] && (created ==> heap.nextId < 0x8000_0000)
    modifies heap, heap.Repr
    ensures heap.Valid()
    ensures r.InsertedAt? ==> (found <==> r.pageId in framed') && (found ==> u == t)
  {
    found, u := false, [];
    r := heap.InsertTuple(t, framed, created);
    if r.InsertedAt? {
      found, u := heap.GetTuple(r.pageId, r.slot, framed');
    }
  }
}
