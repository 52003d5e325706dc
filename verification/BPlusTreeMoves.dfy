/**
 What the page moves of the tree compute, as functions on the page store: a split
 followed by linking the new page into the parent, a merge of two neighbours, and the
 move of one slot between neighbours.  Each is an instance of `Halved`, so each keeps
 a B+ tree a B+ tree.
 */
module BPlusTreeMoves {
  import opened BPlusTreeShape
  import opened BPlusTreeSplit
  import opened BPlusTreeRoot

  function IndexOf(bs: seq<Branch>, p: PageId): (i: int)
    ensures -1 <= i < |bs|
    ensures i >= 0 ==> bs[i].child == p
    ensures forall k :: 0 <= k < (if i < 0 then |bs| else i) ==> bs[k].child != p
  {
    if bs == [] then -1
    else if bs[0].child == p then 0
    else
      var r := IndexOf(bs[1..], p);
      assert forall k :: 1 <= k < |bs| ==> bs[k] == bs[1..][k - 1];
      if r < 0 then -1 else r + 1
  }

  // Write `q` as the parent of every page listed in `bs`.
  function Reparent(pages: map<PageId, Page>, bs: seq<Branch>, q: PageId): map<PageId, Page> {
    map x | x in pages :: if HasChild(bs, x) then pages[x].(parent := q) else pages[x]
  }

  lemma ReparentStep(pages: map<PageId, Page>, bs: seq<Branch>, i: nat, q: PageId)
    requires i < |bs| && bs[i].child in pages
    ensures var before := Reparent(pages, bs[..i], q);
      Reparent(pages, bs[..i + 1], q) == before[bs[i].child := before[bs[i].child].(parent := q)]
  {
    var before, afterwards := Reparent(pages, bs[..i], q), Reparent(pages, bs[..i + 1], q);
    forall x | x in pages
      ensures afterwards[x] == if x == bs[i].child then before[x].(parent := q) else before[x]
    {
      if HasChild(bs[..i], x) {
        var k :| 0 <= k < i && bs[..i][k].child == x;
        assert bs[..i + 1][k].child == x;
      }
      if x == bs[i].child {
        assert bs[..i + 1][i].child == x;
      }
    }
  }

  function KeyAt(pg: Page, j: nat): Key
    requires j < pg.Size()
  {
    if pg.Leaf? then pg.entries[j].key else pg.branches[j].key
  }

  // ----- Split -----

  // Page `p` keeps its first `j` slots, the fresh page `n` gets the others.
  function SplitPages(pages: map<PageId, Page>, p: PageId, j: nat, n: PageId): map<PageId, Page>
    requires p in pages && j <= pages[p].Size()
  {
    match pages[p]
    case Leaf(q, next, es) => pages[p := Leaf(q, n, es[..j])][n := Leaf(q, next, es[j..])]
    case Internal(q, bs) => Reparent(pages[p := Internal(q, bs[..j])][n := Internal(q, bs[j..])], bs[j..], n)
  }

  // Link page `n`, which holds the keys from `k` on, right after its left sibling `p`;
  // a root page gets a parent with the fresh id `up`.
  function Attach(s: Store, p: PageId, k: Key, n: PageId, up: PageId): Store
    requires p in s.pages && n in s.pages
  {
    var q := s.pages[p].parent;
    if q == INVALID_PAGE_ID then
      Store(s.pages[p := s.pages[p].(parent := up)]
                   [n := s.pages[n].(parent := up)]
                   [up := Internal(INVALID_PAGE_ID, [Branch(k, p), Branch(k, n)])],
            up)
    else if q in s.pages && s.pages[q].Internal? && IndexOf(s.pages[q].branches, p) >= 0 then
      var bs := s.pages[q].branches;
      s.(pages := s.pages[q := s.pages[q].(branches := InsertAt(bs, IndexOf(bs, p) + 1, Branch(k, n)))])
    else s
  }

  function SplitSpan(span: map<PageId, Span>, p: PageId, k: Key, n: PageId): map<PageId, Span>
    requires p in span
  {
    span[p := span[p].(hi := At(k))][n := span[p].(lo := At(k))]
  }

  // The shape after the split: `a` is the position of a leaf `p` in the chain.
  function SplitShape(s: Store, g: Shape, p: PageId, k: Key, n: PageId, up: PageId, a: nat): Shape
    requires p in s.pages && p in g.span && a < |g.chain|
  {
    Shape(if p == s.root then SplitSpan(g.span[up := Span(g.span[p].height + 1, MinusInf, PlusInf)], p, k, n)
          else SplitSpan(g.span, p, k, n),
          if s.pages[p].Leaf? then InsertAt(g.chain, a + 1, n) else g.chain)
  }

  ghost predicate Splittable(s: Store, g: Shape, p: PageId, j: nat, n: PageId, up: PageId, a: nat) {
    && WellFormed(s, g)
    && p in s.pages
    && 0 < j < s.pages[p].Size()
    && n !in s.pages && up !in s.pages && n != up
    && n != INVALID_PAGE_ID && up != INVALID_PAGE_ID
    && a < |g.chain|
    && (s.pages[p].Leaf? ==> g.chain[a] == p)
  }

  // The children moved to `n` are children of `p`, and neither `p` nor its parent is one.
  lemma TailChildren(s: Store, g: Shape, p: PageId, j: nat, x: PageId)
    requires WellFormed(s, g)
    requires p in s.pages && s.pages[p].Internal? && j <= |s.pages[p].branches|
    requires HasChild(s.pages[p].branches[j..], x)
    ensures x in s.pages && s.pages[x].parent == p && x != p && x != s.pages[p].parent && x != s.root
  {
    assert PageOk(s, g, p);
    var i :| 0 <= i < |s.pages[p].branches[j..]| && s.pages[p].branches[j..][i].child == x;
    assert s.pages[p].branches[j + i].child == x;
    assert PageOk(s, g, x);
    if p != s.root {
      assert PageOk(s, g, s.pages[p].parent);
    }
  }

  // What a split leaves in each page.
  lemma SplitPagesAt(s: Store, g: Shape, p: PageId, j: nat, n: PageId)
    requires WellFormed(s, g) && p in s.pages && n !in s.pages && 0 < j < s.pages[p].Size()
    ensures var pages := SplitPages(s.pages, p, j, n);
      && pages.Keys == s.pages.Keys + {n}
      && HalvedPages(s.pages[p], pages[p], pages[n], KeyAt(s.pages[p], j), s.pages[p].parent, n)
      && pages[p].Size() == j && pages[p].Size() + pages[n].Size() == s.pages[p].Size()
      && KeyAt(pages[n], 0) == KeyAt(s.pages[p], j)
      && !Moved(pages[n], p) && !Moved(pages[n], s.pages[p].parent)
      && forall x :: x in s.pages && x != p ==> HalvedOther(s, Store(pages, s.root), p, n, x)
  {
    var pages := SplitPages(s.pages, p, j, n);
    if s.pages[p].Internal? {
      var bs := s.pages[p].branches;
      assert bs == Joined(bs[..j], bs[j].key, bs[j..]);
      forall x | HasChild(bs[j..], x)
        ensures x in s.pages && s.pages[x].parent == p && x != p && x != s.pages[p].parent
      {
        TailChildren(s, g, p, j, x);
      }
      assert pages[n] == Internal(s.pages[p].parent, bs[j..]);
    } else {
      assert s.pages[p].entries == s.pages[p].entries[..j] + s.pages[p].entries[j..];
    }
  }

  lemma SplitNonRoot(s: Store, g: Shape, p: PageId, j: nat, n: PageId, up: PageId, a: nat)
    requires Splittable(s, g, p, j, n, up, a) && p != s.root
    ensures var k := KeyAt(s.pages[p], j);
      var q := s.pages[p].parent;
      p in g.span && q in s.pages && s.pages[q].Internal? && IndexOf(s.pages[q].branches, p) >= 0 &&
      Halved(s, g, Attach(Store(SplitPages(s.pages, p, j, n), s.root), p, k, n, up),
             SplitShape(s, g, p, k, n, up, a), p, q, IndexOf(s.pages[q].branches, p), k, n)
  {
    assert PageOk(s, g, p);
    var q := s.pages[p].parent;
    assert PageOk(s, g, q);
    SplitPagesAt(s, g, p, j, n);
    var pages := SplitPages(s.pages, p, j, n);
    AttachNonRoot(s, g, p, KeyAt(s.pages[p], j), n, up, a, pages);
  }

  lemma AttachNonRoot(s: Store, g: Shape, p: PageId, k: Key, n: PageId, up: PageId, a: nat, pages: map<PageId, Page>)
    requires WellFormed(s, g) && p in s.pages && p != s.root && n !in s.pages && n != INVALID_PAGE_ID
    requires a < |g.chain| && (s.pages[p].Leaf? ==> g.chain[a] == p)
    requires pages.Keys == s.pages.Keys + {n}
    requires HalvedPages(s.pages[p], pages[p], pages[n], k, s.pages[p].parent, n)
    requires !Moved(pages[n], p) && !Moved(pages[n], s.pages[p].parent)
    requires forall x :: x in s.pages && x != p ==> HalvedOther(s, Store(pages, s.root), p, n, x)
    ensures
      var q := s.pages[p].parent;
      p in g.span && q in s.pages && s.pages[q].Internal? && IndexOf(s.pages[q].branches, p) >= 0 &&
      Halved(s, g, Attach(Store(pages, s.root), p, k, n, up),
             SplitShape(s, g, p, k, n, up, a), p, q, IndexOf(s.pages[q].branches, p), k, n)
  {
    ParentListed(s, g, p);
    var q := s.pages[p].parent;
    ParentUnchanged(s, p, q, k, n, pages);
    var c := Attach(Store(pages, s.root), p, k, n, up);
    AttachedUnder(s, g, p, q, IndexOf(s.pages[q].branches, p), k, n, pages, c, SplitShape(s, g, p, k, n, up, a));
  }

  // A page that is not the root is listed under its parent.
  lemma ParentListed(s: Store, g: Shape, p: PageId)
    requires WellFormed(s, g) && p in s.pages && p != s.root
    ensures p in g.span
    ensures var q := s.pages[p].parent;
      q in s.pages && q != p && q != INVALID_PAGE_ID && s.pages[q].Internal? && IndexOf(s.pages[q].branches, p) >= 0
  {
    assert PageOk(s, g, p);
    assert PageOk(s, g, s.pages[p].parent);
  }

  // Splitting `p` leaves the page of its parent alone.
  lemma ParentUnchanged(s: Store, p: PageId, q: PageId, k: Key, n: PageId, pages: map<PageId, Page>)
    requires p in s.pages && q in s.pages && q != p && n in pages && !Moved(pages[n], q)
    requires HalvedOther(s, Store(pages, s.root), p, n, q)
    requires p in pages && HalvedPages(s.pages[p], pages[p], pages[n], k, q, n)
    ensures q in pages && pages[q] == s.pages[q] && pages[p].parent == q
  {
  }

  // The parent `q` lists the new page behind `p`.
  lemma AttachedUnder(s: Store, g: Shape, p: PageId, q: PageId, i: nat, k: Key, n: PageId, pages: map<PageId, Page>, c: Store, gc: Shape)
    requires p in s.pages && q in s.pages && p != s.root && p != q && n !in s.pages && n != INVALID_PAGE_ID && p in g.span
    requires pages.Keys == s.pages.Keys + {n}
    requires HalvedPages(s.pages[p], pages[p], pages[n], k, q, n)
    requires !Moved(pages[n], p) && !Moved(pages[n], q)
    requires forall x :: x in s.pages && x != p ==> HalvedOther(s, Store(pages, s.root), p, n, x)
    requires s.pages[q].Internal? && i < |s.pages[q].branches| && s.pages[q].branches[i].child == p && pages[q] == s.pages[q]
    requires c.root == s.root
    requires c.pages == pages[q := pages[q].(branches := InsertAt(pages[q].branches, i + 1, Branch(k, n)))]
    requires gc.span == SplitSpan(g.span, p, k, n) && HalvedChain(g.chain, gc.chain, p, n, s.pages[p].Leaf?)
    ensures Halved(s, g, c, gc, p, q, i, k, n)
  {
    assert c.pages.Keys == s.pages.Keys + {n};
    assert c.pages[n] == pages[n];
    forall x | x in s.pages && x != p && x != q
      ensures HalvedOther(s, c, p, n, x)
    {
      assert HalvedOther(s, Store(pages, s.root), p, n, x);
    }
  }

  lemma RightHalfKnown(s: Store, g: Shape, p: PageId, k: Key, n: PageId, pages: map<PageId, Page>, x: PageId)
    requires WellFormed(s, g) && p in s.pages && p in pages && n in pages
    requires HalvedPages(s.pages[p], pages[p], pages[n], k, s.pages[p].parent, n)
    ensures Moved(pages[n], x) ==> x in s.pages
  {
    if Moved(pages[n], x) {
      assert PageOk(s, g, p);
      var m :| 0 <= m < |pages[n].branches| && pages[n].branches[m].child == x;
      assert s.pages[p].branches[|pages[p].branches| + m].child == x;
    }
  }

  // A root is split under a new root that first has the old root as its only child.
  lemma AttachRoot(s: Store, g: Shape, p: PageId, k: Key, n: PageId, up: PageId, a: nat, pages: map<PageId, Page>,
                   t: Store, gt: Shape)
    requires WellFormed(s, g) && p == s.root && n !in s.pages && n != INVALID_PAGE_ID && up !in s.pages && n != up
    requires a < |g.chain| && (s.pages[p].Leaf? ==> g.chain[a] == p) && p in g.span
    requires pages.Keys == s.pages.Keys + {n}
    requires HalvedPages(s.pages[p], pages[p], pages[n], k, s.pages[p].parent, n)
    requires !Moved(pages[n], p)
    requires forall x :: x in s.pages && x != p ==> HalvedOther(s, Store(pages, s.root), p, n, x)
    requires WellFormed(t, gt) && Taller(s, g, t, gt, up, k)
    requires gt.span == g.span[up := Span(g.span[p].height + 1, MinusInf, PlusInf)]
    ensures Halved(t, gt, Attach(Store(pages, s.root), p, k, n, up), SplitShape(s, g, p, k, n, up, a), p, up, 0, k, n)
  {
    assert PageOk(s, g, p);
    var c := Attach(Store(pages, s.root), p, k, n, up);
    assert c.pages.Keys == t.pages.Keys + {n};
    assert c.pages[n] == pages[n].(parent := up);
    RightHalfKnown(s, g, p, k, n, pages, up);
    forall x | x in t.pages && x != p && x != up
      ensures HalvedOther(t, c, p, n, x)
    {
      assert HalvedOther(s, Store(pages, s.root), p, n, x);
    }
  }

  /** Splitting a page and linking the new half into its parent keeps a B+ tree, and its entries. */
  lemma SplitKeepsTree(s: Store, g: Shape, p: PageId, j: nat, n: PageId, up: PageId, a: nat)
    requires Splittable(s, g, p, j, n, up, a)
    ensures p in g.span && n in SplitPages(s.pages, p, j, n) && p in SplitPages(s.pages, p, j, n)
    ensures var k := KeyAt(s.pages[p], j);
      var c := Attach(Store(SplitPages(s.pages, p, j, n), s.root), p, k, n, up);
      var gc := SplitShape(s, g, p, k, n, up, a);
      WellFormed(c, gc) && Entries(c.pages, gc.chain) == Entries(s.pages, g.chain)
  {
    assert PageOk(s, g, p);
    SplitPagesAt(s, g, p, j, n);
    var k := KeyAt(s.pages[p], j);
    var pages := SplitPages(s.pages, p, j, n);
    var c := Attach(Store(pages, s.root), p, k, n, up);
    var gc := SplitShape(s, g, p, k, n, up, a);
    if p == s.root {
      SplitRoot(s, g, p, k, n, up, a, pages, c, gc);
    } else {
      var q := s.pages[p].parent;
      SplitNonRoot(s, g, p, j, n, up, a);
      SplitIsCut(s, g, c, gc, p, q, IndexOf(s.pages[q].branches, p), k, n);
    }
  }

  // A split root: first a root above it, then the cut.
  lemma SplitRoot(s: Store, g: Shape, p: PageId, k: Key, n: PageId, up: PageId, a: nat, pages: map<PageId, Page>, c: Store, gc: Shape)
    requires WellFormed(s, g) && p == s.root && n !in s.pages && n != INVALID_PAGE_ID && up !in s.pages && n != up && up != INVALID_PAGE_ID
    requires a < |g.chain| && (s.pages[p].Leaf? ==> g.chain[a] == p) && p in g.span
    requires pages.Keys == s.pages.Keys + {n}
    requires HalvedPages(s.pages[p], pages[p], pages[n], k, s.pages[p].parent, n)
    requires !Moved(pages[n], p)
    requires forall x :: x in s.pages && x != p ==> HalvedOther(s, Store(pages, s.root), p, n, x)
    requires pages[p].Size() > 0 && pages[n].Size() > 0 && KeyAt(pages[n], 0) == k
    requires c == Attach(Store(pages, s.root), p, k, n, up) && gc == SplitShape(s, g, p, k, n, up, a)
    ensures WellFormed(c, gc) && Entries(c.pages, gc.chain) == Entries(s.pages, g.chain)
  {
    assert PageOk(s, g, p);
    var t := Store(s.pages[p := s.pages[p].(parent := up)][up := Internal(INVALID_PAGE_ID, [Branch(k, p)])], up);
    var gt := Shape(g.span[up := Span(g.span[p].height + 1, MinusInf, PlusInf)], g.chain);
    GrowKeepsTree(s, g, t, gt, up, k);
    TallerEntries(s, g, t, gt, up, k);
    AttachRoot(s, g, p, k, n, up, a, pages, t, gt);
    SplitIsCut(t, gt, c, gc, p, up, 0, k, n);
  }

  lemma SplitIsCut(w: Store, gw: Shape, c: Store, gc: Shape, p: PageId, q: PageId, i: nat, k: Key, n: PageId)
    requires Halved(w, gw, c, gc, p, q, i, k, n) && WellFormed(w, gw)
    requires c.pages[p].Size() > 0 && c.pages[n].Size() > 0 && KeyAt(c.pages[n], 0) == k
    ensures WellFormed(c, gc) && Entries(c.pages, gc.chain) == Entries(w.pages, gw.chain)
  {
    CutKeepsTree(w, gw, c, gc, p, q, i, k, n);
    HalvedEntries(w, gw, c, gc, p, q, i, k, n);
  }

  // ----- Merge -----

  ghost predicate Neighbours(s: Store, g: Shape, q: PageId, i: nat) {
    && WellFormed(s, g)
    && q in s.pages && s.pages[q].Internal? && i + 1 < |s.pages[q].branches|
  }

  // The two neighbours are pages of one kind, at one height.
  lemma NeighboursAlike(s: Store, g: Shape, q: PageId, i: nat)
    requires Neighbours(s, g, q, i)
    ensures var bs := s.pages[q].branches;
      var p, n := bs[i].child, bs[i + 1].child;
      && p in s.pages && n in s.pages && p != n && p != q && n != q && p != s.root && n != s.root
      && s.pages[p].Leaf? == s.pages[n].Leaf?
      && s.pages[p].parent == q && s.pages[n].parent == q
      && (s.pages[n].Internal? ==> |s.pages[p].branches| > 0 && |s.pages[n].branches| > 0)
      && p in g.span && n in g.span
      && g.span[p].hi == At(bs[i + 1].key) && g.span[n].lo == At(bs[i + 1].key)
      && g.span[n].height == g.span[p].height
  {
    assert PageOk(s, g, q);
    var bs := s.pages[q].branches;
    assert PageOk(s, g, bs[i].child);
    assert PageOk(s, g, bs[i + 1].child);
  }

  // The right neighbour's slots go to the left one; the right page and its branch go.
  function MergePages(pages: map<PageId, Page>, q: PageId, i: nat): map<PageId, Page>
    requires q in pages && pages[q].Internal? && i + 1 < |pages[q].branches|
    requires pages[q].branches[i].child in pages && pages[q].branches[i + 1].child in pages
    requires pages[pages[q].branches[i].child].Leaf? == pages[pages[q].branches[i + 1].child].Leaf?
    requires pages[pages[q].branches[i + 1].child].Internal? ==> |pages[pages[q].branches[i + 1].child].branches| > 0
  {
    var bs := pages[q].branches;
    var p, n := bs[i].child, bs[i + 1].child;
    var rest := (pages - {n})[q := Internal(pages[q].parent, bs[..i + 1] + bs[i + 2..])];
    match pages[p]
    case Leaf(_, _, es) => rest[p := Leaf(q, pages[n].next, es + pages[n].entries)]
    case Internal(_, a) =>
      Reparent(rest[p := Internal(q, Joined(a, bs[i + 1].key, pages[n].branches))], pages[n].branches, p)
  }

  function MergeShape(g: Shape, p: PageId, n: PageId, a: nat, leaf: bool): Shape
    requires p in g.span && n in g.span && (leaf ==> a + 1 < |g.chain|)
  {
    Shape(g.span[p := g.span[p].(hi := g.span[n].hi)],
          if leaf then g.chain[..a + 1] + g.chain[a + 2..] else g.chain)
  }

  // Neighbouring leaves are neighbours in the chain.
  lemma LeafNeighbours(s: Store, g: Shape, q: PageId, i: nat) returns (a: nat)
    requires Neighbours(s, g, q, i)
    requires s.pages[q].branches[i].child in s.pages && s.pages[s.pages[q].branches[i].child].Leaf?
    ensures a + 1 < |g.chain|
    ensures g.chain[a] == s.pages[q].branches[i].child && g.chain[a + 1] == s.pages[q].branches[i + 1].child
  {
    NeighboursAlike(s, g, q, i);
    var bs := s.pages[q].branches;
    var p, n := bs[i].child, bs[i + 1].child;
    assert p in g.chain && n in g.chain;
    a :| 0 <= a < |g.chain| && g.chain[a] == p;
    var b :| 0 <= b < |g.chain| && g.chain[b] == n;
    assert LinkOk(s, g, a);
    if a + 1 < b {
      ChainIncreasing(s, g, a + 1, b);
      assert false;
    } else if b < a + 1 {
      ChainIncreasing(s, g, b, a + 1);
      assert false;
    }
  }

  lemma MergeHalved(s: Store, g: Shape, q: PageId, i: nat, a: nat)
    requires Neighbours(s, g, q, i)
    requires var p := s.pages[q].branches[i].child;
      p in s.pages && s.pages[p].Leaf? ==>
        a + 1 < |g.chain| && g.chain[a] == p && g.chain[a + 1] == s.pages[q].branches[i + 1].child
    ensures var bs := s.pages[q].branches;
      var p, n := bs[i].child, bs[i + 1].child;
      && p in s.pages && n in s.pages && s.pages[p].Leaf? == s.pages[n].Leaf? && p in g.span && n in g.span
      && (s.pages[n].Internal? ==> |s.pages[n].branches| > 0)
      && Halved(Store(MergePages(s.pages, q, i), s.root), MergeShape(g, p, n, a, s.pages[p].Leaf?), s, g,
                p, q, i, bs[i + 1].key, n)
  {
    NeighboursAlike(s, g, q, i);
    MergePagesAt(s, g, q, i);
    MergedHalved(s, g, q, i, a, MergePages(s.pages, q, i));
  }

  lemma MergedHalved(s: Store, g: Shape, q: PageId, i: nat, a: nat, pages: map<PageId, Page>)
    requires Neighbours(s, g, q, i)
    requires var p := s.pages[q].branches[i].child;
      p in s.pages && s.pages[p].Leaf? ==>
        a + 1 < |g.chain| && g.chain[a] == p && g.chain[a + 1] == s.pages[q].branches[i + 1].child
    requires var bs := s.pages[q].branches;
      var p, n := bs[i].child, bs[i + 1].child;
      && p in s.pages && n in s.pages
      && s.pages.Keys == pages.Keys + {n} && n !in pages && p in pages && q in pages
      && HalvedPages(pages[p], s.pages[p], s.pages[n], bs[i + 1].key, q, n)
      && pages[q] == Internal(s.pages[q].parent, bs[..i + 1] + bs[i + 2..])
      && !Moved(s.pages[n], p) && !Moved(s.pages[n], q)
      && forall x :: x in pages && x != p && x != q ==> HalvedOther(Store(pages, s.root), s, p, n, x)
    ensures var bs := s.pages[q].branches;
      var p, n := bs[i].child, bs[i + 1].child;
      && p in g.span && n in g.span
      && Halved(Store(pages, s.root), MergeShape(g, p, n, a, s.pages[p].Leaf?), s, g, p, q, i, bs[i + 1].key, n)
  {
    NeighboursAlike(s, g, q, i);
    var bs := s.pages[q].branches;
    var p, n := bs[i].child, bs[i + 1].child;
    assert bs == InsertAt(bs[..i + 1] + bs[i + 2..], i + 1, bs[i + 1]);
    var gw := MergeShape(g, p, n, a, s.pages[p].Leaf?);
    if s.pages[p].Leaf? {
      assert g.chain == InsertAt(gw.chain, a + 1, n);
      assert gw.chain[a] == p;
    }
    assert PageOk(s, g, n);
  }

  // What a merge leaves in each page.
  lemma MergePagesAt(s: Store, g: Shape, q: PageId, i: nat)
    requires Neighbours(s, g, q, i)
    ensures var bs := s.pages[q].branches;
      var p, n := bs[i].child, bs[i + 1].child;
      && p in s.pages && n in s.pages && s.pages[p].Leaf? == s.pages[n].Leaf?
      && (s.pages[n].Internal? ==> |s.pages[n].branches| > 0)
      && var pages := MergePages(s.pages, q, i);
         && s.pages.Keys == pages.Keys + {n} && n !in pages
         && HalvedPages(pages[p], s.pages[p], s.pages[n], bs[i + 1].key, q, n)
         && pages[q] == Internal(s.pages[q].parent, bs[..i + 1] + bs[i + 2..])
         && bs == InsertAt(bs[..i + 1] + bs[i + 2..], i + 1, bs[i + 1])
         && !Moved(s.pages[n], p) && !Moved(s.pages[n], q)
         && forall x :: x in pages && x != p && x != q ==> HalvedOther(Store(pages, s.root), s, p, n, x)
  {
    NeighboursAlike(s, g, q, i);
    var bs := s.pages[q].branches;
    var p, n := bs[i].child, bs[i + 1].child;
    forall x | Moved(s.pages[n], x)
      ensures x in s.pages && s.pages[x].parent == n && x != p && x != q
    {
      RightChild(s, g, q, n, x);
    }
    if s.pages[p].Leaf? {
      var a := LeafNeighbours(s, g, q, i);
      assert LinkOk(s, g, a);
    }
    var pages := MergePages(s.pages, q, i);
    assert s.pages.Keys == pages.Keys + {n};
    assert bs == InsertAt(bs[..i + 1] + bs[i + 2..], i + 1, bs[i + 1]);
  }

  lemma RightChild(s: Store, g: Shape, q: PageId, n: PageId, x: PageId)
    requires WellFormed(s, g)
    requires q in s.pages && n in s.pages && n != s.root && s.pages[n].parent == q && Moved(s.pages[n], x)
    ensures x in s.pages && s.pages[x].parent == n && x != q && x != s.root
    ensures x in g.span && n in g.span && g.span[x].height < g.span[n].height
  {
    assert PageOk(s, g, n);
    assert PageOk(s, g, q);
    assert PageOk(s, g, x);
  }

  /** Merging two neighbours keeps a B+ tree, and its entries. */
  lemma MergeKeepsTree(s: Store, g: Shape, q: PageId, i: nat, a: nat)
    requires Neighbours(s, g, q, i)
    requires var p := s.pages[q].branches[i].child;
      p in s.pages && s.pages[p].Leaf? ==>
        a + 1 < |g.chain| && g.chain[a] == p && g.chain[a + 1] == s.pages[q].branches[i + 1].child
    ensures var bs := s.pages[q].branches;
      var p, n := bs[i].child, bs[i + 1].child;
      && p in s.pages && n in s.pages && s.pages[p].Leaf? == s.pages[n].Leaf? && p in g.span && n in g.span
      && (s.pages[n].Internal? ==> |s.pages[n].branches| > 0)
      && var w := Store(MergePages(s.pages, q, i), s.root);
         var gw := MergeShape(g, p, n, a, s.pages[p].Leaf?);
         WellFormed(w, gw) && Entries(w.pages, gw.chain) == Entries(s.pages, g.chain)
  {
    MergeHalved(s, g, q, i, a);
    var bs := s.pages[q].branches;
    var p, n := bs[i].child, bs[i + 1].child;
    HalvesJoined(Store(MergePages(s.pages, q, i), s.root), MergeShape(g, p, n, a, s.pages[p].Leaf?), s, g,
                 p, q, i, bs[i + 1].key, n);
  }

  lemma HalvesJoined(w: Store, gw: Shape, c: Store, gc: Shape, p: PageId, q: PageId, i: nat, k: Key, n: PageId)
    requires Halved(w, gw, c, gc, p, q, i, k, n) && WellFormed(c, gc)
    ensures WellFormed(w, gw) && Entries(w.pages, gw.chain) == Entries(c.pages, gc.chain)
  {
    JoinKeepsTree(w, gw, c, gc, p, q, i, k, n);
    HalvedEntries(w, gw, c, gc, p, q, i, k, n);
  }

  // ----- Redistribution: one slot moves between two neighbours -----

  // The left neighbour's last slot moves to the front of the right neighbour.
  function LendLast(pages: map<PageId, Page>, q: PageId, i: nat): map<PageId, Page>
    requires q in pages && pages[q].Internal? && i + 1 < |pages[q].branches|
    requires pages[q].branches[i].child in pages && pages[q].branches[i + 1].child in pages
    requires pages[pages[q].branches[i].child].Leaf? == pages[pages[q].branches[i + 1].child].Leaf?
    requires pages[pages[q].branches[i].child].Size() > 0
    requires pages[pages[q].branches[i + 1].child].Internal? ==> |pages[pages[q].branches[i + 1].child].branches| > 0
  {
    var bs := pages[q].branches;
    var p, n, k := bs[i].child, bs[i + 1].child, bs[i + 1].key;
    var l := pages[p].Size() - 1;
    var k' := KeyAt(pages[p], l);
    var pages1 := pages[q := Internal(pages[q].parent, bs[i + 1 := Branch(k', n)])];
    match pages[p]
    case Leaf(_, _, es) =>
      pages1[p := pages[p].(entries := es[..l])][n := pages[n].(entries := [es[l]] + pages[n].entries)]
    case Internal(_, a) =>
      var b := pages[n].branches;
      Reparent(pages1[p := pages[p].(branches := a[..l])]
                     [n := pages[n].(branches := [Branch(b[0].key, a[l].child), Branch(k, b[0].child)] + b[1..])],
               [a[l]], n)
  }

  // The right neighbour's first slot moves to the end of the left neighbour.
  function LendFirst(pages: map<PageId, Page>, q: PageId, i: nat): map<PageId, Page>
    requires q in pages && pages[q].Internal? && i + 1 < |pages[q].branches|
    requires pages[q].branches[i].child in pages && pages[q].branches[i + 1].child in pages
    requires pages[pages[q].branches[i].child].Leaf? == pages[pages[q].branches[i + 1].child].Leaf?
    requires pages[pages[q].branches[i + 1].child].Size() > 1
  {
    var bs := pages[q].branches;
    var p, n, k := bs[i].child, bs[i + 1].child, bs[i + 1].key;
    var k' := KeyAt(pages[n], 1);
    var pages1 := pages[q := Internal(pages[q].parent, bs[i + 1 := Branch(k', n)])];
    match pages[p]
    case Leaf(_, _, es) =>
      pages1[p := pages[p].(entries := es + [pages[n].entries[0]])][n := pages[n].(entries := pages[n].entries[1..])]
    case Internal(_, a) =>
      var b := pages[n].branches;
      Reparent(pages1[p := pages[p].(branches := a + [Branch(k, b[0].child)])][n := pages[n].(branches := b[1..])],
               [b[0]], p)
  }

  // A store that differs from the merged store of two neighbours only in where the
  // joined run is cut is again a B+ tree.
  lemma RecutKeepsTree(s: Store, g: Shape, q: PageId, i: nat, a: nat, pages': map<PageId, Page>, k': Key)
    requires Neighbours(s, g, q, i)
    requires var p := s.pages[q].branches[i].child;
      p in s.pages && s.pages[p].Leaf? ==>
        a + 1 < |g.chain| && g.chain[a] == p && g.chain[a + 1] == s.pages[q].branches[i + 1].child
    requires var bs := s.pages[q].branches;
      var p, n := bs[i].child, bs[i + 1].child;
      && p in s.pages && n in s.pages && s.pages[p].Leaf? == s.pages[n].Leaf? && p in g.span && n in g.span
      && (s.pages[n].Internal? ==> |s.pages[n].branches| > 0)
      && var pages := MergePages(s.pages, q, i);
         && pages'.Keys == s.pages.Keys
         && HalvedPages(pages[p], pages'[p], pages'[n], k', q, n)
         && pages'[q] == Internal(s.pages[q].parent, bs[i + 1 := Branch(k', n)])
         && !Moved(pages'[n], p) && !Moved(pages'[n], q)
         && pages'[p].Size() > 0 && pages'[n].Size() > 0
         && (s.pages[p].Leaf? ==> KeyAt(pages'[n], 0) == k')
         && forall x :: x in pages && x != p && x != q ==> HalvedOther(Store(pages, s.root), Store(pages', s.root), p, n, x)
    ensures var bs := s.pages[q].branches;
      var p, n := bs[i].child, bs[i + 1].child;
      var c, gc := Store(pages', s.root), Shape(SplitSpan(MergeShape(g, p, n, a, s.pages[p].Leaf?).span, p, k', n), g.chain);
      WellFormed(c, gc) && Entries(c.pages, gc.chain) == Entries(s.pages, g.chain)
  {
    MergeKeepsTree(s, g, q, i, a);
    NeighboursAlike(s, g, q, i);
    MergePagesAt(s, g, q, i);
    var bs := s.pages[q].branches;
    var p, n := bs[i].child, bs[i + 1].child;
    var w, gw := Store(MergePages(s.pages, q, i), s.root), MergeShape(g, p, n, a, s.pages[p].Leaf?);
    var c, gc := Store(pages', s.root), Shape(SplitSpan(gw.span, p, k', n), g.chain);
    assert PageOk(s, g, n);
    RecutHalved(s, g, q, i, a, w, gw, c, gc, k');
    CutKeepsTree(w, gw, c, gc, p, q, i, k', n);
    HalvedEntries(w, gw, c, gc, p, q, i, k', n);
  }

  lemma RecutHalved(s: Store, g: Shape, q: PageId, i: nat, a: nat, w: Store, gw: Shape, c: Store, gc: Shape, k': Key)
    requires Neighbours(s, g, q, i)
    requires var bs := s.pages[q].branches;
      var p, n := bs[i].child, bs[i + 1].child;
      && p in s.pages && n in s.pages && p != q && p != s.root && n != INVALID_PAGE_ID
      && w.root == c.root == s.root
      && s.pages.Keys == w.pages.Keys + {n} && n !in w.pages && c.pages.Keys == s.pages.Keys
      && p in w.pages && q in w.pages && p in g.span && n in g.span
      && HalvedPages(w.pages[p], c.pages[p], c.pages[n], k', q, n)
      && w.pages[q] == Internal(s.pages[q].parent, bs[..i + 1] + bs[i + 2..])
      && c.pages[q] == Internal(s.pages[q].parent, bs[i + 1 := Branch(k', n)])
      && !Moved(c.pages[n], p) && !Moved(c.pages[n], q)
      && (w.pages[p].Leaf? ==> a + 1 < |g.chain| && g.chain[a] == p && g.chain[a + 1] == n)
      && (forall x :: x in w.pages && x != p && x != q ==> HalvedOther(w, c, p, n, x))
      && gw == MergeShape(g, p, n, a, w.pages[p].Leaf?)
      && gc == Shape(SplitSpan(gw.span, p, k', n), g.chain)
    ensures var bs := s.pages[q].branches;
      Halved(w, gw, c, gc, bs[i].child, q, i, k', bs[i + 1].child)
  {
    var bs := s.pages[q].branches;
    var n := bs[i + 1].child;
    assert bs[i + 1 := Branch(k', n)] == InsertAt(bs[..i + 1] + bs[i + 2..], i + 1, Branch(k', n));
    if w.pages[bs[i].child].Leaf? {
      assert g.chain == InsertAt(gw.chain, a + 1, n);
      assert gw.chain[a] == bs[i].child;
    }
  }

  // The parents recorded for the children of the two neighbours, and that no child is
  // listed twice.
  lemma NeighbourChildren(s: Store, g: Shape, q: PageId, i: nat)
    requires Neighbours(s, g, q, i)
    ensures var bs := s.pages[q].branches;
      var p, n := bs[i].child, bs[i + 1].child;
      && p in s.pages && n in s.pages && s.pages[p].Leaf? == s.pages[n].Leaf?
      && (s.pages[p].Internal? ==>
            && (forall x :: HasChild(s.pages[p].branches, x) ==> x in s.pages && s.pages[x].parent == p && x != p && x != n && x != q)
            && (forall x :: HasChild(s.pages[n].branches, x) ==> x in s.pages && s.pages[x].parent == n && x != p && x != n && x != q))
  {
    NeighboursAlike(s, g, q, i);
    var bs := s.pages[q].branches;
    var p, n := bs[i].child, bs[i + 1].child;
    if s.pages[p].Internal? {
      forall x | HasChild(s.pages[p].branches, x)
        ensures x in s.pages && s.pages[x].parent == p && x != p && x != n && x != q
      {
        RightChild(s, g, q, p, x);
      }
      forall x | HasChild(s.pages[n].branches, x)
        ensures x in s.pages && s.pages[x].parent == n && x != p && x != n && x != q
      {
        RightChild(s, g, q, n, x);
      }
    }
  }

  lemma LendLastOther(s: Store, g: Shape, q: PageId, i: nat, x: PageId)
    requires Neighbours(s, g, q, i)
    requires var bs := s.pages[q].branches;
      var p, n := bs[i].child, bs[i + 1].child;
      && p in s.pages && n in s.pages && s.pages[p].Leaf? == s.pages[n].Leaf?
      && s.pages[p].Internal? && |s.pages[p].branches| > 0 && |s.pages[n].branches| > 0
      && x in s.pages && x != p && x != n && x != q
    ensures var bs := s.pages[q].branches;
      var p, n := bs[i].child, bs[i + 1].child;
      HalvedOther(Store(MergePages(s.pages, q, i), s.root), Store(LendLast(s.pages, q, i), s.root), p, n, x)
  {
    NeighbourChildren(s, g, q, i);
    var bs := s.pages[q].branches;
    var p, n := bs[i].child, bs[i + 1].child;
    var a, b := s.pages[p].branches, s.pages[n].branches;
    var pages' := LendLast(s.pages, q, i);
    var b' := pages'[n].branches;
    assert b' == [Branch(b[0].key, a[|a| - 1].child), Branch(bs[i + 1].key, b[0].child)] + b[1..];
    if HasChild(b, x) {
      var m :| 0 <= m < |b| && b[m].child == x;
      assert b'[m + 1].child == x;
      assert HasChild(b', x);
    } else if x == a[|a| - 1].child {
      assert b'[0].child == x;
      assert HasChild([a[|a| - 1]], x) by { assert [a[|a| - 1]][0].child == x; }
    } else {
      assert forall m :: 1 <= m < |b'| ==> b'[m].child == b[m - 1].child;
    }
  }

  lemma LendLastPages(s: Store, g: Shape, q: PageId, i: nat)
    requires Neighbours(s, g, q, i)
    requires s.pages[q].branches[i].child in s.pages && s.pages[s.pages[q].branches[i].child].Size() > 1
    ensures var bs := s.pages[q].branches;
      var p, n := bs[i].child, bs[i + 1].child;
      && p in s.pages && n in s.pages && s.pages[p].Leaf? == s.pages[n].Leaf?
      && (s.pages[n].Internal? ==> |s.pages[n].branches| > 0)
      && p != n && p != q && n != q
      && var pages, pages', k' := MergePages(s.pages, q, i), LendLast(s.pages, q, i), KeyAt(s.pages[p], s.pages[p].Size() - 1);
         && pages'.Keys == s.pages.Keys
         && HalvedPages(pages[p], pages'[p], pages'[n], k', q, n)
         && pages'[q] == Internal(s.pages[q].parent, bs[i + 1 := Branch(k', n)])
         && !Moved(pages'[n], p) && !Moved(pages'[n], q)
         && pages'[p].Size() == s.pages[p].Size() - 1 && pages'[n].Size() == s.pages[n].Size() + 1
         && (s.pages[p].Leaf? ==> KeyAt(pages'[n], 0) == k')
  {
    NeighboursAlike(s, g, q, i);
    NeighbourChildren(s, g, q, i);
    MergePagesAt(s, g, q, i);
    var bs := s.pages[q].branches;
    var p, n := bs[i].child, bs[i + 1].child;
    if s.pages[p].Leaf? {
      var es := s.pages[p].entries;
      assert es == es[..|es| - 1] + [es[|es| - 1]];
    } else {
      var a, b := s.pages[p].branches, s.pages[n].branches;
      var l := |a| - 1;
      assert HasChild(a, a[l].child);
      var b' := LendLast(s.pages, q, i)[n].branches;
      assert b' == [Branch(b[0].key, a[l].child), Branch(bs[i + 1].key, b[0].child)] + b[1..];
      assert Joined(a, bs[i + 1].key, b) == Joined(a[..l], a[l].key, b');
      forall m | 0 <= m < |b'| ensures b'[m].child != p && b'[m].child != q {
        if m > 0 { assert HasChild(b, b[m - 1].child); assert b'[m].child == b[m - 1].child; }
      }
    }
  }

  /** Moving a page's last slot to its right neighbour keeps a B+ tree, and its entries. */
  lemma LendLastKeepsTree(s: Store, g: Shape, q: PageId, i: nat, a: nat) returns (g': Shape)
    requires Neighbours(s, g, q, i)
    requires s.pages[q].branches[i].child in s.pages && s.pages[s.pages[q].branches[i].child].Size() > 1
    requires var p := s.pages[q].branches[i].child;
      p in s.pages && s.pages[p].Leaf? ==>
        a + 1 < |g.chain| && g.chain[a] == p && g.chain[a + 1] == s.pages[q].branches[i + 1].child
    ensures var bs := s.pages[q].branches;
      var p, n := bs[i].child, bs[i + 1].child;
      && p in s.pages && n in s.pages && s.pages[p].Leaf? == s.pages[n].Leaf?
      && (s.pages[n].Internal? ==> |s.pages[n].branches| > 0)
      && WellFormed(Store(LendLast(s.pages, q, i), s.root), g') && g'.chain == g.chain
      && Entries(LendLast(s.pages, q, i), g'.chain) == Entries(s.pages, g.chain)
  {
    NeighboursAlike(s, g, q, i);
    MergePagesAt(s, g, q, i);
    LendLastPages(s, g, q, i);
    var bs := s.pages[q].branches;
    var p, n := bs[i].child, bs[i + 1].child;
    var pages, pages', k' := MergePages(s.pages, q, i), LendLast(s.pages, q, i), KeyAt(s.pages[p], s.pages[p].Size() - 1);
    forall x | x in pages && x != p && x != q
      ensures HalvedOther(Store(pages, s.root), Store(pages', s.root), p, n, x)
    {
      if s.pages[p].Internal? { LendLastOther(s, g, q, i, x); }
    }
    RecutKeepsTree(s, g, q, i, a, pages', k');
    g' := Shape(SplitSpan(MergeShape(g, p, n, a, s.pages[p].Leaf?).span, p, k', n), g.chain);
  }

  lemma LendFirstOther(s: Store, g: Shape, q: PageId, i: nat, x: PageId)
    requires Neighbours(s, g, q, i)
    requires var bs := s.pages[q].branches;
      var p, n := bs[i].child, bs[i + 1].child;
      && p in s.pages && n in s.pages && s.pages[p].Leaf? == s.pages[n].Leaf?
      && s.pages[p].Internal? && |s.pages[p].branches| > 0 && |s.pages[n].branches| > 1
      && x in s.pages && x != p && x != n && x != q
    ensures var bs := s.pages[q].branches;
      var p, n := bs[i].child, bs[i + 1].child;
      HalvedOther(Store(MergePages(s.pages, q, i), s.root), Store(LendFirst(s.pages, q, i), s.root), p, n, x)
  {
    NeighbourChildren(s, g, q, i);
    var bs := s.pages[q].branches;
    var p, n := bs[i].child, bs[i + 1].child;
    var b := s.pages[n].branches;
    var b' := LendFirst(s.pages, q, i)[n].branches;
    assert b' == b[1..];
    assert forall m :: 0 <= m < |b'| ==> b'[m] == b[m + 1];
    if x == b[0].child {
      assert HasChild(b, x);
      assert HasChild([b[0]], x) by { assert [b[0]][0].child == x; }
      if HasChild(b', x) {
        var m :| 0 <= m < |b'| && b'[m].child == x;
        DistinctChildren(s, g, n, 0, m + 1);
        assert false;
      }
    } else if HasChild(b, x) {
      var m :| 0 <= m < |b| && b[m].child == x;
      assert b'[m - 1].child == x;
    }
  }

  lemma LendFirstPages(s: Store, g: Shape, q: PageId, i: nat)
    requires Neighbours(s, g, q, i)
    requires s.pages[q].branches[i + 1].child in s.pages && s.pages[s.pages[q].branches[i + 1].child].Size() > 1
    ensures var bs := s.pages[q].branches;
      var p, n := bs[i].child, bs[i + 1].child;
      && p in s.pages && n in s.pages && s.pages[p].Leaf? == s.pages[n].Leaf?
      && p != n && p != q && n != q
      && var pages, pages', k' := MergePages(s.pages, q, i), LendFirst(s.pages, q, i), KeyAt(s.pages[n], 1);
         && pages'.Keys == s.pages.Keys
         && HalvedPages(pages[p], pages'[p], pages'[n], k', q, n)
         && pages'[q] == Internal(s.pages[q].parent, bs[i + 1 := Branch(k', n)])
         && !Moved(pages'[n], p) && !Moved(pages'[n], q)
         && pages'[p].Size() == s.pages[p].Size() + 1 && pages'[n].Size() == s.pages[n].Size() - 1
         && KeyAt(pages'[n], 0) == k'
  {
    NeighboursAlike(s, g, q, i);
    NeighbourChildren(s, g, q, i);
    MergePagesAt(s, g, q, i);
    var bs := s.pages[q].branches;
    var p, n := bs[i].child, bs[i + 1].child;
    if s.pages[p].Leaf? {
      var es := s.pages[n].entries;
      assert es == [es[0]] + es[1..];
      assert s.pages[p].entries + es == s.pages[p].entries + [es[0]] + es[1..];
    } else {
      var a, b, k := s.pages[p].branches, s.pages[n].branches, bs[i + 1].key;
      var b' := LendFirst(s.pages, q, i)[n].branches;
      assert b' == b[1..];
      assert Joined(a, k, b) == Joined(a + [Branch(k, b[0].child)], b[1].key, b');
      assert HasChild(b, b[0].child);
      forall m | 0 <= m < |b'| ensures b'[m].child != p && b'[m].child != q {
        assert b'[m] == b[m + 1];
        assert HasChild(b, b[m + 1].child);
      }
    }
  }

  /** Moving a page's first slot to its left neighbour keeps a B+ tree, and its entries. */
  lemma LendFirstKeepsTree(s: Store, g: Shape, q: PageId, i: nat, a: nat) returns (g': Shape)
    requires Neighbours(s, g, q, i)
    requires s.pages[q].branches[i + 1].child in s.pages && s.pages[s.pages[q].branches[i + 1].child].Size() > 1
    requires var p := s.pages[q].branches[i].child;
      p in s.pages && s.pages[p].Leaf? ==>
        a + 1 < |g.chain| && g.chain[a] == p && g.chain[a + 1] == s.pages[q].branches[i + 1].child
    ensures var bs := s.pages[q].branches;
      var p, n := bs[i].child, bs[i + 1].child;
      && p in s.pages && n in s.pages && s.pages[p].Leaf? == s.pages[n].Leaf?
      && WellFormed(Store(LendFirst(s.pages, q, i), s.root), g') && g'.chain == g.chain
      && Entries(LendFirst(s.pages, q, i), g'.chain) == Entries(s.pages, g.chain)
  {
    NeighboursAlike(s, g, q, i);
    MergePagesAt(s, g, q, i);
    LendFirstPages(s, g, q, i);
    var bs := s.pages[q].branches;
    var p, n := bs[i].child, bs[i + 1].child;
    var pages, pages', k' := MergePages(s.pages, q, i), LendFirst(s.pages, q, i), KeyAt(s.pages[n], 1);
    forall x | x in pages && x != p && x != q
      ensures HalvedOther(Store(pages, s.root), Store(pages', s.root), p, n, x)
    {
      if s.pages[p].Internal? { LendFirstOther(s, g, q, i, x); }
    }
    RecutKeepsTree(s, g, q, i, a, pages', k');
    g' := Shape(SplitSpan(MergeShape(g, p, n, a, s.pages[p].Leaf?).span, p, k', n), g.chain);
  }
}
