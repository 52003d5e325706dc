/**
 Removal: what redistribution, merging and collapsing the root do to page sizes.
 */
module BPlusTreeDeletion {
  import opened BPlusTreeShape
  import opened BPlusTreeSplit
  import opened BPlusTreeRoot
  import opened BPlusTreeMoves
  import opened BPlusTreeContents
  import opened BPlusTreeInsertion

  // ----- Removal: two neighbouring pages under one parent -----

  // What the moves between children `i` and `i + 1` of page `q` rely on.
  ghost predicate Adjacent(pages: map<PageId, Page>, q: PageId, i: nat) {
    && q in pages && pages[q].Internal? && i + 1 < |pages[q].branches|
    && var bs := pages[q].branches;
      var p, n := bs[i].child, bs[i + 1].child;
      && p in pages && n in pages && p != n && p != q && n != q
      && pages[p].parent == q && pages[n].parent == q
      && pages[p].Leaf? == pages[n].Leaf?
      && IndexOf(bs, p) == i && IndexOf(bs, n) == i + 1
      && (pages[p].Internal? ==>
            && |pages[p].branches| > 0 && |pages[n].branches| > 0
            && (forall x :: HasChild(pages[p].branches, x) ==> x in pages && x != p && x != n && x != q)
            && (forall x :: HasChild(pages[n].branches, x) ==> x in pages && x != p && x != n && x != q))
  }

  lemma ChildIndex(s: Store, g: Shape, q: PageId, i: nat)
    requires WellFormed(s, g) && q in s.pages && s.pages[q].Internal? && i < |s.pages[q].branches|
    ensures IndexOf(s.pages[q].branches, s.pages[q].branches[i].child) == i
  {
    var bs := s.pages[q].branches;
    DistinctChildren(s, g, q, IndexOf(bs, bs[i].child), i);
  }

  lemma NeighboursAdjacent(s: Store, g: Shape, q: PageId, i: nat)
    requires Neighbours(s, g, q, i)
    ensures Adjacent(s.pages, q, i)
  {
    NeighboursAlike(s, g, q, i);
    NeighbourChildren(s, g, q, i);
    ChildIndex(s, g, q, i);
    ChildIndex(s, g, q, i + 1);
  }

  // A lender has enough slots left, and the borrower reaches the minimum.
  lemma LendSizes(leafMax: nat, internalMax: nat, s: Store, s': Store, p: PageId, n: PageId, node: PageId)
    requires s'.root == s.root && s'.pages.Keys == s.pages.Keys
    requires p in s.pages && n in s.pages && p != n && (node == p || node == n) && p != s.root && n != s.root
    requires forall x :: x in s.pages ==> s'.pages[x].Leaf? == s.pages[x].Leaf?
    requires forall x :: x in s.pages && x != p && x != n ==> s'.pages[x].Size() == s.pages[x].Size()
    requires s.pages[p].Leaf? == s.pages[n].Leaf?
    requires SizesBut(leafMax, internalMax, s, node)
    requires var max := MaxSize(leafMax, internalMax, s.pages[p]);
      && s.pages[p].Size() + s.pages[n].Size() >= max
      && s.pages[node].Size() == max / 2 - 1
      && s'.pages[node].Size() == s.pages[node].Size() + 1
      && s'.pages[p].Size() + s'.pages[n].Size() == s.pages[p].Size() + s.pages[n].Size()
    ensures SizesBut(leafMax, internalMax, s', INVALID_PAGE_ID)
  {
    var other := if node == p then n else p;
    assert SizeOk(leafMax, internalMax, s, other);
    forall x | x in s'.pages
      ensures SizeOk(leafMax, internalMax, s', x)
    {
      if x != p && x != n { assert SizeOk(leafMax, internalMax, s, x); }
    }
  }

  // A merged page does not overflow, and only the parent may have become too small.
  lemma MergeSizes(leafMax: nat, internalMax: nat, s: Store, g: Shape, q: PageId, i: nat, node: PageId)
    requires internalMax >= 4 && Neighbours(s, g, q, i) && Adjacent(s.pages, q, i)
    requires node == s.pages[q].branches[i].child || node == s.pages[q].branches[i + 1].child
    requires var p, n := s.pages[q].branches[i].child, s.pages[q].branches[i + 1].child;
      s.pages[p].Size() + s.pages[n].Size() < MaxSize(leafMax, internalMax, s.pages[p])
    requires SizesBut(leafMax, internalMax, s, node)
    ensures var w := Store(MergePages(s.pages, q, i), s.root);
      && SizesBut(leafMax, internalMax, w, q)
      && q in w.pages && w.pages[q].Internal? && |w.pages[q].branches| + 1 == |s.pages[q].branches|
      && |s.pages[q].branches| <= internalMax
      && (if q == w.root then |s.pages[q].branches| >= 2 else |s.pages[q].branches| >= internalMax / 2)
      && w.pages[q].parent == s.pages[q].parent && w.pages.Keys == s.pages.Keys - {s.pages[q].branches[i + 1].child}
  {
    var p, n := s.pages[q].branches[i].child, s.pages[q].branches[i + 1].child;
    var w := Store(MergePages(s.pages, q, i), s.root);
    MergedSizes(s, g, q, i, p, n, w);
    assert SizeOk(leafMax, internalMax, s, q);
    assert SizeOk(leafMax, internalMax, s, if node == p then n else p);
    forall x | x in w.pages && x != q
      ensures SizeOk(leafMax, internalMax, w, x)
    {
      if x != p { assert SizeOk(leafMax, internalMax, s, x); }
    }
  }

  // What a merge does to kinds and sizes of pages.
  lemma MergedSizes(s: Store, g: Shape, q: PageId, i: nat, p: PageId, n: PageId, w: Store)
    requires Neighbours(s, g, q, i) && Adjacent(s.pages, q, i)
    requires p == s.pages[q].branches[i].child && n == s.pages[q].branches[i + 1].child
    requires w == Store(MergePages(s.pages, q, i), s.root)
    ensures p != q && n != q && p != n && p != s.root && n != s.root
    ensures w.pages.Keys == s.pages.Keys - {n}
    ensures w.pages[q].Internal? && w.pages[q].parent == s.pages[q].parent && |w.pages[q].branches| + 1 == |s.pages[q].branches|
    ensures w.pages[p].Leaf? == s.pages[p].Leaf? && w.pages[p].Size() == s.pages[p].Size() + s.pages[n].Size()
    ensures forall x :: x in w.pages && x != p && x != q ==> w.pages[x].Leaf? == s.pages[x].Leaf? && w.pages[x].Size() == s.pages[x].Size()
  {
    MergePagesAt(s, g, q, i);
    NeighboursAlike(s, g, q, i);
    forall x | x in w.pages && x != p && x != q
      ensures w.pages[x].Leaf? == s.pages[x].Leaf? && w.pages[x].Size() == s.pages[x].Size()
    {
      assert HalvedOther(w, s, p, n, x);
    }
  }

  // A root with one child hands the root over to it.
  function CollapsePages(pages: map<PageId, Page>, r: PageId): map<PageId, Page>
    requires r in pages && pages[r].Internal? && |pages[r].branches| > 0 && pages[r].branches[0].child in pages
  {
    var c := pages[r].branches[0].child;
    pages[c := pages[c].(parent := INVALID_PAGE_ID)] - {r}
  }

  lemma CollapseRoot(leafMax: nat, internalMax: nat, t: Store, g: Shape)
    requires internalMax >= 4 && leafMax >= 2 && WellFormed(t, g)
    requires t.pages[t.root].Internal? && |t.pages[t.root].branches| == 1
    requires SizesBut(leafMax, internalMax, t, t.root)
    ensures var c := t.pages[t.root].branches[0].child;
      && c in t.pages && c != t.root && c != INVALID_PAGE_ID
      && var s := Store(CollapsePages(t.pages, t.root), c);
        WellFormed(s, g) && SizesBut(leafMax, internalMax, s, INVALID_PAGE_ID)
        && Entries(s.pages, g.chain) == Entries(t.pages, g.chain)
  {
    var up := t.root;
    assert PageOk(t, g, up);
    var bs := t.pages[up].branches;
    var c := bs[0].child;
    assert PageOk(t, g, c);
    var s := Store(CollapsePages(t.pages, up), c);
    assert bs == [Branch(bs[0].key, c)];
    assert t.pages == s.pages[c := s.pages[c].(parent := up)][up := Internal(INVALID_PAGE_ID, [Branch(bs[0].key, c)])];
    assert Taller(s, g, t, g, up, bs[0].key);
    CollapseKeepsTree(s, g, t, g, up, bs[0].key);
    TallerEntries(s, g, t, g, up, bs[0].key);
    forall x | x in s.pages
      ensures SizeOk(leafMax, internalMax, s, x)
    {
      assert SizeOk(leafMax, internalMax, t, x);
    }
  }

  // Children `i` and `i + 1` of `q`, one of which, `node`, is one slot below the minimum.
  ghost predicate Lacking(leafMax: nat, internalMax: nat, s: Store, g: Shape, q: PageId, i: nat, node: PageId) {
    && leafMax >= 2 && internalMax >= 4
    && Neighbours(s, g, q, i)
    && (node == s.pages[q].branches[i].child || node == s.pages[q].branches[i + 1].child)
    && node in s.pages && node != s.root
    && s.pages[node].Size() == MaxSize(leafMax, internalMax, s.pages[node]) / 2 - 1
    && SizesBut(leafMax, internalMax, s, node)
  }

  function LeftSize(s: Store, q: PageId, i: nat): nat
    requires q in s.pages && s.pages[q].Internal? && i < |s.pages[q].branches|
  {
    if s.pages[q].branches[i].child in s.pages then s.pages[s.pages[q].branches[i].child].Size() else 0
  }

  // The place of two neighbours in the leaf chain, when they are leaves.
  lemma ChainPlace(s: Store, g: Shape, q: PageId, i: nat) returns (a: nat)
    requires Neighbours(s, g, q, i)
    ensures var p := s.pages[q].branches[i].child;
      p in s.pages && s.pages[p].Leaf? ==>
        a + 1 < |g.chain| && g.chain[a] == p && g.chain[a + 1] == s.pages[q].branches[i + 1].child
  {
    a := 0;
    if s.pages[q].branches[i].child in s.pages && s.pages[s.pages[q].branches[i].child].Leaf? {
      a := LeafNeighbours(s, g, q, i);
    }
  }

  /** Borrowing from the left neighbour: nobody underflows, nobody overflows. */
  lemma BorrowFromLeft(leafMax: nat, internalMax: nat, s: Store, g: Shape, q: PageId, i: nat, node: PageId) returns (g': Shape)
    requires Lacking(leafMax, internalMax, s, g, q, i, node) && node == s.pages[q].branches[i + 1].child
    requires LeftSize(s, q, i) + s.pages[node].Size() >= MaxSize(leafMax, internalMax, s.pages[node])
    ensures Adjacent(s.pages, q, i) && LeftSize(s, q, i) > 1
    ensures var s' := Store(LendLast(s.pages, q, i), s.root);
      && WellFormed(s', g') && SizesBut(leafMax, internalMax, s', INVALID_PAGE_ID)
      && s'.pages.Keys == s.pages.Keys && Entries(s'.pages, g'.chain) == Entries(s.pages, g.chain)
  {
    NeighboursAdjacent(s, g, q, i);
    NeighboursAlike(s, g, q, i);
    var a := ChainPlace(s, g, q, i);
    var p := s.pages[q].branches[i].child;
    assert LeftSize(s, q, i) > 1 by { assert SizeOk(leafMax, internalMax, s, p); }
    var s' := Store(LendLast(s.pages, q, i), s.root);
    assert SizesBut(leafMax, internalMax, s', INVALID_PAGE_ID) && s'.pages.Keys == s.pages.Keys by {
      LendLastPages(s, g, q, i);
      LendSizes(leafMax, internalMax, s, s', p, node, node);
    }
    g' := LendLastKeepsTree(s, g, q, i, a);
  }

  /** Borrowing from the right neighbour: nobody underflows, nobody overflows. */
  lemma BorrowFromRight(leafMax: nat, internalMax: nat, s: Store, g: Shape, q: PageId, i: nat, node: PageId) returns (g': Shape)
    requires Lacking(leafMax, internalMax, s, g, q, i, node) && node == s.pages[q].branches[i].child
    requires LeftSize(s, q, i + 1) + s.pages[node].Size() >= MaxSize(leafMax, internalMax, s.pages[node])
    ensures Adjacent(s.pages, q, i) && LeftSize(s, q, i + 1) > 1
    ensures var s' := Store(LendFirst(s.pages, q, i), s.root);
      && WellFormed(s', g') && SizesBut(leafMax, internalMax, s', INVALID_PAGE_ID)
      && s'.pages.Keys == s.pages.Keys && Entries(s'.pages, g'.chain) == Entries(s.pages, g.chain)
  {
    NeighboursAdjacent(s, g, q, i);
    NeighboursAlike(s, g, q, i);
    var a := ChainPlace(s, g, q, i);
    var n := s.pages[q].branches[i + 1].child;
    assert LeftSize(s, q, i + 1) > 1 by { assert SizeOk(leafMax, internalMax, s, n); }
    var s' := Store(LendFirst(s.pages, q, i), s.root);
    assert SizesBut(leafMax, internalMax, s', INVALID_PAGE_ID) && s'.pages.Keys == s.pages.Keys by {
      LendFirstPages(s, g, q, i);
      LendSizes(leafMax, internalMax, s, s', node, n, node);
    }
    g' := LendFirstKeepsTree(s, g, q, i, a);
  }

  /** Merging: the merged page does not overflow, and only the parent may lack a slot. */
  lemma MergeNeighbours(leafMax: nat, internalMax: nat, s: Store, g: Shape, q: PageId, i: nat, node: PageId) returns (g': Shape)
    requires Lacking(leafMax, internalMax, s, g, q, i, node)
    requires LeftSize(s, q, i) + LeftSize(s, q, i + 1) < MaxSize(leafMax, internalMax, s.pages[node])
    ensures Adjacent(s.pages, q, i)
    ensures var w := Store(MergePages(s.pages, q, i), s.root);
      && WellFormed(w, g') && Entries(w.pages, g'.chain) == Entries(s.pages, g.chain)
      && w.pages.Keys == s.pages.Keys - {s.pages[q].branches[i + 1].child}
      && SizesBut(leafMax, internalMax, w, q)
      && q in w.pages && w.pages[q].Internal? && |w.pages[q].branches| + 1 == |s.pages[q].branches|
      && |s.pages[q].branches| <= internalMax
      && (if q == w.root then |s.pages[q].branches| >= 2 else |s.pages[q].branches| >= internalMax / 2)
      && q in g.span && q in g'.span && g'.span[q] == g.span[q]
      && w.root in g.span && w.root in g'.span && g'.span[w.root] == g.span[w.root]
      && (w.pages[q].parent == INVALID_PAGE_ID <==> q == w.root)
      && node in g.span && g.span[node].height < g.span[q].height
      && s.pages[q].branches[i].child in g.span && g.span[s.pages[q].branches[i].child].height < g.span[q].height
      && g'.span.Keys == g.span.Keys && (forall x :: x in g.span ==> g'.span[x].height == g.span[x].height)
      && (q != w.root ==> g.span[q].height < g.span[w.root].height)
  {
    NeighboursAdjacent(s, g, q, i);
    NeighboursAlike(s, g, q, i);
    var a := ChainPlace(s, g, q, i);
    MergeKeepsTree(s, g, q, i, a);
    MergeSizes(leafMax, internalMax, s, g, q, i, node);
    var p, n := s.pages[q].branches[i].child, s.pages[q].branches[i + 1].child;
    g' := MergeShape(g, p, n, a, s.pages[p].Leaf?);
    MergeSpans(s, g, q, i, p, n, g');
  }

  // A merge widens the interval of one page and leaves all heights alone.
  lemma MergeSpans(s: Store, g: Shape, q: PageId, i: nat, p: PageId, n: PageId, g': Shape)
    requires Neighbours(s, g, q, i)
    requires p == s.pages[q].branches[i].child && n == s.pages[q].branches[i + 1].child
    requires p in g.span && n in g.span && g'.span == g.span[p := g.span[p].(hi := g.span[n].hi)]
    ensures q in g.span && q in g'.span && g'.span[q] == g.span[q]
    ensures s.root in g.span && s.root in g'.span && g'.span[s.root] == g.span[s.root]
    ensures s.pages[q].parent == INVALID_PAGE_ID <==> q == s.root
    ensures g.span[p].height < g.span[q].height && g.span[n].height < g.span[q].height
    ensures g'.span.Keys == g.span.Keys && (forall x :: x in g.span ==> g'.span[x].height == g.span[x].height)
    ensures q != s.root ==> g.span[q].height < g.span[s.root].height
  {
    NeighboursAlike(s, g, q, i);
    QParent(s, g, q);
    assert PageOk(s, g, q);
    assert ChildOk(s, g, q, p, ChildSpan(s.pages[q].branches, i, g.span[q]));
  }

  // A page has no parent exactly when it is the root.
  lemma QParent(s: Store, g: Shape, q: PageId)
    requires WellFormed(s, g) && q in s.pages
    ensures s.pages[q].parent == INVALID_PAGE_ID <==> q == s.root
    ensures q in g.span && s.root in g.span
    ensures q != s.root ==> g.span[q].height < g.span[s.root].height
  {
    assert PageOk(s, g, q);
    assert PageOk(s, g, s.root);
    if q != s.root { assert PageOk(s, g, s.pages[q].parent); }
  }

  // A page that is not the root always has a sibling.
  lemma SiblingExists(leafMax: nat, internalMax: nat, s: Store, g: Shape, q: PageId, node: PageId)
    requires internalMax >= 4 && WellFormed(s, g) && node in s.pages && node != s.root && s.pages[node].parent == q
    requires SizesBut(leafMax, internalMax, s, node)
    ensures q in s.pages && q != node && s.pages[q].Internal? && IndexOf(s.pages[q].branches, node) >= 0
    ensures 2 <= |s.pages[q].branches| <= internalMax
    ensures q in g.span && node in g.span && g.span[node].height < g.span[q].height
    ensures q != INVALID_PAGE_ID
  {
    assert PageOk(s, g, node);
    assert PageOk(s, g, q);
    assert SizeOk(leafMax, internalMax, s, q);
  }

  // A tree whose root is a leaf has no other page.
  lemma OnlyLeaf(s: Store, g: Shape)
    requires WellFormed(s, g) && s.pages[s.root].Leaf?
    ensures s.pages.Keys == {s.root} && g.chain == [s.root]
    ensures Entries(s.pages, g.chain) == s.pages[s.root].entries
  {
    assert PageOk(s, g, s.root);
    forall x | x in s.pages
      ensures x == s.root
    {
      assert PageOk(s, g, x);
    }
    assert LinkOk(s, g, 0);
    if |g.chain| > 1 {
      ChainIncreasing(s, g, 0, 1);
    }
    assert g.chain[1..] == [];
  }

  // Dropping the entry of `key` from its leaf: the tree loses that key alone, and only
  // this leaf may have become too small.
  lemma RemoveOne(leafMax: nat, internalMax: nat, s: Store, g: Shape, p: PageId, a: nat, key: Key, i: nat, es: seq<Entry>)
    requires WellFormed(s, g) && SizesBut(leafMax, internalMax, s, INVALID_PAGE_ID)
    requires p in s.pages && s.pages[p].Leaf? && p in g.span && a < |g.chain| && g.chain[a] == p
    requires Within(key, g.span[p].lo, g.span[p].hi)
    requires if exists k :: 0 <= k < |s.pages[p].entries| && s.pages[p].entries[k].key == key
             then i < |s.pages[p].entries| && s.pages[p].entries[i].key == key && es == s.pages[p].entries[..i] + s.pages[p].entries[i + 1..]
             else es == s.pages[p].entries
    ensures var s' := SetEntries(s, p, es);
      && WellFormed(s', g) && SizesBut(leafMax, internalMax, s', p)
      && Sorted(Entries(s.pages, g.chain)) && Sorted(Entries(s'.pages, g.chain))
      && ToMap(Entries(s'.pages, g.chain)) == ToMap(Entries(s.pages, g.chain)) - {key}
    ensures |s.pages[p].entries| - 1 <= |es| <= |s.pages[p].entries| <= leafMax
    ensures p != s.root ==> leafMax / 2 <= |s.pages[p].entries|
  {
    forall x | x in s.pages ensures x != INVALID_PAGE_ID { assert PageOk(s, g, x); }
    assert SizeOk(leafMax, internalMax, s, p);
    SetEntriesSizes(leafMax, internalMax, s, p, es, p);
    LeafDecides(s, g, a, key);
    if es != s.pages[p].entries {
      DropEntry(s, g, p, a, i);
    } else {
      assert SetEntries(s, p, es) == s;
    }
  }

  // ----- Which neighbour helps -----

  // One slot went from page `from` to page `to`, and no other page gained or lost any.
  ghost predicate OneSlot(pages: map<PageId, Page>, pages': map<PageId, Page>, from: PageId, to: PageId) {
    && from in pages && to in pages && from != to && pages'.Keys == pages.Keys
    && pages'[from].Size() + 1 == pages[from].Size()
    && pages'[to].Size() == pages[to].Size() + 1
    && forall x :: x in pages && x != from && x != to ==> pages'[x].Size() == pages[x].Size()
  }

  lemma LendLastMoves(pages: map<PageId, Page>, q: PageId, i: nat)
    requires Adjacent(pages, q, i) && pages[pages[q].branches[i].child].Size() > 1
    ensures OneSlot(pages, LendLast(pages, q, i), pages[q].branches[i].child, pages[q].branches[i + 1].child)
  {
  }

  lemma LendFirstMoves(pages: map<PageId, Page>, q: PageId, i: nat)
    requires Adjacent(pages, q, i) && pages[pages[q].branches[i + 1].child].Size() > 1
    ensures OneSlot(pages, LendFirst(pages, q, i), pages[q].branches[i + 1].child, pages[q].branches[i].child)
  {
  }

  /** How child `i` of page `q`, `node`, is mended.  A page with half its slots stays; a
      left neighbour whose slots do not fit with its own into one page lends one, else a
      right one; else `node` goes into its left neighbour, or, as the first child, takes in
      its right one. */
  ghost predicate Mended(leafMax: nat, internalMax: nat, s: Store, q: PageId, i: nat, node: PageId,
                         pages': map<PageId, Page>, deleted: bool, dead: set<PageId>)
    requires q in s.pages && s.pages[q].Internal? && i < |s.pages[q].branches| && node in s.pages
  {
    var bs, max := s.pages[q].branches, MaxSize(leafMax, internalMax, s.pages[node]);
    if s.pages[node].Size() >= max / 2 then
      pages' == s.pages && !deleted && dead == {}
    else if i > 0 && LeftSize(s, q, i - 1) + LeftSize(s, q, i) >= max then
      OneSlot(s.pages, pages', bs[i - 1].child, node) && !deleted && dead == {}
    else if i + 1 < |bs| && LeftSize(s, q, i) + LeftSize(s, q, i + 1) >= max then
      OneSlot(s.pages, pages', bs[i + 1].child, node) && !deleted && dead == {}
    else
      (node in pages' <==> !deleted) && (deleted <==> i > 0) && (i == 0 && i + 1 < |bs| ==> bs[i + 1].child in dead)
  }

  // A page is one child of its parent only.
  lemma OnePlace(s: Store, g: Shape, q: PageId, i: nat)
    requires WellFormed(s, g) && q in s.pages && s.pages[q].Internal? && i < |s.pages[q].branches|
    ensures forall j :: 0 <= j < |s.pages[q].branches| && s.pages[q].branches[j].child == s.pages[q].branches[i].child ==> j == i
  {
    forall j | 0 <= j < |s.pages[q].branches| && s.pages[q].branches[j].child == s.pages[q].branches[i].child
      ensures j == i
    {
      DistinctChildren(s, g, q, i, j);
    }
  }
}
