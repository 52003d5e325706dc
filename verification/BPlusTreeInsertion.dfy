/**
 Insertion: how full pages may be, what a split leaves to be linked one level up, and
 what adding or dropping one entry does to the map of the tree.
 */
module BPlusTreeInsertion {
  import opened BPlusTreeShape
  import opened BPlusTreeSplit
  import opened BPlusTreeRoot
  import opened BPlusTreeMoves
  import opened BPlusTreeContents

  // ----- Page sizes -----

  function MaxSize(leafMax: nat, internalMax: nat, pg: Page): nat {
    if pg.Leaf? then leafMax else internalMax
  }

  predicate SizeOk(leafMax: nat, internalMax: nat, s: Store, p: PageId)
    requires p in s.pages
  {
    var pg := s.pages[p];
    var max := MaxSize(leafMax, internalMax, pg);
    && pg.Size() <= max
    && (if p != s.root then pg.Size() >= max / 2 else if pg.Leaf? then pg.Size() >= 1 else pg.Size() >= 2)
  }

  // Every page but `x` is filled as a B+ tree page should be.
  ghost predicate SizesBut(leafMax: nat, internalMax: nat, s: Store, x: PageId) {
    forall p {:trigger SizeOk(leafMax, internalMax, s, p)} ::
      p in s.pages && p != x ==> SizeOk(leafMax, internalMax, s, p)
  }

  // ----- A page that was split, and whose new half is not linked yet -----

  // The parent the new half is about to be linked under: the old page's parent, or the
  // root that is about to be created.
  function Above(s: Store, p: PageId, up: PageId): PageId
    requires p in s.pages
  {
    if s.pages[p].parent == INVALID_PAGE_ID then up else s.pages[p].parent
  }

  // Page `n` was split off `p` and holds its keys from `k` on.  Linking it makes a B+
  // tree, whose parent page may hold one branch too many.
  ghost predicate Pending(leafMax: nat, internalMax: nat, s: Store, g: Shape, p: PageId, k: Key, n: PageId, up: PageId) {
    && p in s.pages && n in s.pages && p != n
    && up !in s.pages && up != INVALID_PAGE_ID
    && s.pages[n].parent == s.pages[p].parent
    && (s.pages[p].parent == INVALID_PAGE_ID <==> p == s.root)
    && var q, c := Above(s, p, up), Attach(s, p, k, n, up);
      && q != p && q != n
      && (p != s.root ==> q in s.pages && s.pages[q].Internal? && IndexOf(s.pages[q].branches, p) >= 0)
      && WellFormed(c, g)
      && SizesBut(leafMax, internalMax, c, q)
      && q in c.pages && c.pages[q].Internal?
      && 2 <= |c.pages[q].branches| <= internalMax + 1
      && (q != c.root ==> |c.pages[q].branches| >= internalMax / 2)
  }

  // How many levels the linking may still climb.
  ghost function Climb(s: Store, g: Shape, p: PageId): int
    requires p in s.pages
  {
    if s.pages[p].parent == INVALID_PAGE_ID || p !in g.span || s.root !in g.span then 0
    else g.span[s.root].height - g.span[p].height
  }

  /** The test `key < pop_key` finds the half that holds the page that was split before. */
  lemma ChooseHalf(c: Store, g: Shape, q: PageId, bs: seq<Branch>, i: nat, k: Key, n: PageId, h: nat)
    requires WellFormed(c, g) && q in c.pages && c.pages[q].Internal?
    requires i < |bs| && c.pages[q].branches == InsertAt(bs, i + 1, Branch(k, n))
    requires 0 < h < |bs|
    ensures i < h <==> k < bs[h].key
  {
    var bs' := c.pages[q].branches;
    assert bs'[i + 1] == Branch(k, n);
    assert PageOk(c, g, q);
    if i < h {
      assert bs'[h + 1] == bs[h];
      SeparatorsIncreasing(c, g, q, i + 1, h + 1);
    } else {
      assert bs'[h] == bs[h];
      SeparatorsIncreasing(c, g, q, h, i + 1);
    }
  }

  // Page `t` with a branch to `n` in slot `at`, and `t` as the parent of `n`.
  function PutBranch(pages: map<PageId, Page>, t: PageId, at: nat, k: Key, n: PageId): map<PageId, Page>
    requires t in pages && pages[t].Internal? && at <= |pages[t].branches| && n in pages
  {
    var pages' := pages[t := pages[t].(branches := InsertAt(pages[t].branches, at, Branch(k, n)))];
    pages'[n := pages'[n].(parent := t)]
  }

  // The pages after splitting a full parent `q` and putting the branch into one half.
  function SplitThenInsert(pages: map<PageId, Page>, q: PageId, h: nat, n2: PageId, i: nat, k: Key, n: PageId): map<PageId, Page>
    requires q in pages && pages[q].Internal? && i < |pages[q].branches| && h <= |pages[q].branches|
    requires n in pages && n != q && n2 !in pages
  {
    var parts := SplitPages(pages, q, h, n2);
    if i < h then PutBranch(parts, q, i + 1, k, n) else PutBranch(parts, n2, i + 1 - h, k, n)
  }

  // The branch list of a parent with the new branch, cut after the half that got it.
  lemma InsertThenCut(bs: seq<Branch>, i: nat, b: Branch, h: nat)
    requires i < |bs| && h <= |bs|
    ensures var bs' := InsertAt(bs, i + 1, b);
      if i < h then InsertAt(bs[..h], i + 1, b) == bs'[..h + 1] && bs[h..] == bs'[h + 1..]
      else bs[..h] == bs'[..h] && InsertAt(bs[h..], i + 1 - h, b) == bs'[h..]
  {
    var bs' := InsertAt(bs, i + 1, b);
    InsertAtEach(bs, i + 1, b);
    if i < h {
      InsertAtEach(bs[..h], i + 1, b);
      assert InsertAt(bs[..h], i + 1, b) == bs'[..h + 1];
      assert bs[h..] == bs'[h + 1..];
    } else {
      InsertAtEach(bs[h..], i + 1 - h, b);
      assert bs[..h] == bs'[..h];
      assert InsertAt(bs[h..], i + 1 - h, b) == bs'[h..];
    }
  }

  lemma InsertAtEach(bs: seq<Branch>, i: nat, b: Branch)
    requires i <= |bs|
    ensures var bs' := InsertAt(bs, i, b);
      |bs'| == |bs| + 1 && forall j :: 0 <= j < |bs'| ==> bs'[j] == if j < i then bs[j] else if j == i then b else bs[j - 1]
  {
  }

  lemma HasChildInsert(bs: seq<Branch>, i: nat, b: Branch, x: PageId)
    requires i <= |bs|
    ensures HasChild(InsertAt(bs, i, b), x) <==> HasChild(bs, x) || x == b.child
  {
    var bs' := InsertAt(bs, i, b);
    assert bs'[i] == b;
    if HasChild(bs, x) {
      var m :| 0 <= m < |bs| && bs[m].child == x;
      assert bs'[if m < i then m else m + 1].child == x;
    }
    if HasChild(bs', x) {
      var m :| 0 <= m < |bs'| && bs'[m].child == x;
      assert m != i ==> bs[if m < i then m else m - 1].child == x;
    }
  }

  lemma SplitThenInsertIs(c: Store, g: Shape, pages: map<PageId, Page>, q: PageId, h: nat, n2: PageId, i: nat, k: Key, n: PageId)
    requires WellFormed(c, g) && q in pages && pages[q].Internal? && i < |pages[q].branches| && 0 < h < |pages[q].branches|
    requires n in pages && n != q && n2 !in pages && pages[n].parent == q
    requires c.pages == pages[q := pages[q].(branches := InsertAt(pages[q].branches, i + 1, Branch(k, n)))]
    ensures SplitThenInsert(pages, q, h, n2, i, k, n) == SplitPages(c.pages, q, if i < h then h + 1 else h, n2)
  {
    var bs := pages[q].branches;
    var bs' := InsertAt(bs, i + 1, Branch(k, n));
    InsertThenCut(bs, i, Branch(k, n), h);
    assert !HasChild(bs[h..], q) by {
      if HasChild(bs[h..], q) {
        HasChildInsert(bs[h..], if i < h then 0 else i + 1 - h, Branch(k, n), q);
        TailChildren(c, g, q, if i < h then h + 1 else h, q);
        assert false;
      }
    }
    if i < h {
      assert !HasChild(bs[h..], n) by {
        if HasChild(bs[h..], n) {
          var m :| 0 <= m < |bs[h..]| && bs[h..][m].child == n;
          assert bs'[h + 1 + m].child == bs'[i + 1].child;
          DistinctChildren(c, g, q, h + 1 + m, i + 1);
          assert false;
        }
      }
      InsertIntoLeft(c, pages, q, h, n2, i, k, n);
    } else {
      InsertIntoRight(c, pages, q, h, n2, i, k, n);
    }
  }

  lemma InsertIntoLeft(c: Store, pages: map<PageId, Page>, q: PageId, h: nat, n2: PageId, i: nat, k: Key, n: PageId)
    requires q in pages && pages[q].Internal? && i < h < |pages[q].branches|
    requires n in pages && n != q && n2 !in pages && pages[n].parent == q
    requires c.pages == pages[q := pages[q].(branches := InsertAt(pages[q].branches, i + 1, Branch(k, n)))]
    requires !HasChild(pages[q].branches[h..], q) && !HasChild(pages[q].branches[h..], n)
    ensures SplitThenInsert(pages, q, h, n2, i, k, n) == SplitPages(c.pages, q, h + 1, n2)
  {
    InsertThenCut(pages[q].branches, i, Branch(k, n), h);
    var l, r := SplitThenInsert(pages, q, h, n2, i, k, n), SplitPages(c.pages, q, h + 1, n2);
    assert l.Keys == r.Keys;
    forall x | x in l
      ensures l[x] == r[x]
    {
    }
  }

  lemma InsertIntoRight(c: Store, pages: map<PageId, Page>, q: PageId, h: nat, n2: PageId, i: nat, k: Key, n: PageId)
    requires q in pages && pages[q].Internal? && h <= i < |pages[q].branches|
    requires n in pages && n != q && n2 !in pages && pages[n].parent == q
    requires c.pages == pages[q := pages[q].(branches := InsertAt(pages[q].branches, i + 1, Branch(k, n)))]
    requires !HasChild(pages[q].branches[h..], q)
    ensures SplitThenInsert(pages, q, h, n2, i, k, n) == SplitPages(c.pages, q, h, n2)
  {
    InsertThenCut(pages[q].branches, i, Branch(k, n), h);
    var l, r := SplitThenInsert(pages, q, h, n2, i, k, n), SplitPages(c.pages, q, h, n2);
    assert l.Keys == r.Keys;
    forall x | x in l
      ensures l[x] == r[x]
    {
      HasChildInsert(pages[q].branches[h..], i + 1 - h, Branch(k, n), x);
    }
  }

  lemma AttachOther(s: Store, p: PageId, k: Key, n: PageId, up: PageId, x: PageId)
    requires p in s.pages && n in s.pages && up !in s.pages
    requires x in Attach(s, p, k, n, up).pages && x != Above(s, p, up)
    ensures var c := Attach(s, p, k, n, up);
      && x in s.pages
      && c.pages[x].Leaf? == s.pages[x].Leaf? && c.pages[x].Size() == s.pages[x].Size()
      && (c.root == if s.pages[p].parent == INVALID_PAGE_ID then up else s.root)
  {
  }

  // The sizes after splitting an overfull page in the middle and linking the new half.
  lemma SplitSizes(leafMax: nat, internalMax: nat, w: Store, p: PageId, k: Key, n: PageId, up: PageId, s: Store, x: PageId)
    requires p in w.pages && s.root == w.root && s.pages.Keys == w.pages.Keys + {n} && n !in w.pages && up !in s.pages
    requires w.pages[p].parent == INVALID_PAGE_ID <==> p == w.root
    requires p != w.root ==> w.root in w.pages
    requires HalvedPages(w.pages[p], s.pages[p], s.pages[n], k, w.pages[p].parent, n)
    requires forall x :: x in w.pages && x != p ==> HalvedOther(w, s, p, n, x)
    requires x in Attach(s, p, k, n, up).pages && x != Above(s, p, up)
    requires var max := MaxSize(leafMax, internalMax, w.pages[p]);
      max / 2 <= s.pages[p].Size() <= max && max / 2 <= s.pages[n].Size() <= max
    requires SizesBut(leafMax, internalMax, w, p)
    ensures SizeOk(leafMax, internalMax, Attach(s, p, k, n, up), x)
  {
    AttachOther(s, p, k, n, up, x);
    if x != p && x != n {
      assert HalvedOther(w, s, p, n, x);
      assert SizeOk(leafMax, internalMax, w, x);
    }
  }

  // Splitting an overfull page in the middle leaves one page to link one level up.
  lemma SplitPending(leafMax: nat, internalMax: nat, w: Store, g: Shape, p: PageId, j: nat, n: PageId, up: PageId, a: nat)
    requires internalMax >= 4 && leafMax >= 2
    requires Splittable(w, g, p, j, n, up, a)
    requires w.pages[p].Size() == MaxSize(leafMax, internalMax, w.pages[p]) + 1
    requires (w.pages[p].Size() - 1) / 2 <= j <= (w.pages[p].Size() - 1) / 2 + 1
    requires SizesBut(leafMax, internalMax, w, p)
    ensures p in g.span && n in SplitPages(w.pages, p, j, n) && p in SplitPages(w.pages, p, j, n)
    ensures var k := KeyAt(w.pages[p], j);
      var s, g' := Store(SplitPages(w.pages, p, j, n), w.root), SplitShape(w, g, p, k, n, up, a);
      && Pending(leafMax, internalMax, s, g', p, k, n, up)
      && Entries(Attach(s, p, k, n, up).pages, g'.chain) == Entries(w.pages, g.chain)
  {
    assert PageOk(w, g, p);
    SplitKeepsTree(w, g, p, j, n, up, a);
    SplitPagesAt(w, g, p, j, n);
    var k := KeyAt(w.pages[p], j);
    var s, g' := Store(SplitPages(w.pages, p, j, n), w.root), SplitShape(w, g, p, k, n, up, a);
    PendingOf(leafMax, internalMax, w, g, p, k, n, up, s, g');
  }

  lemma PendingOf(leafMax: nat, internalMax: nat, w: Store, g: Shape, p: PageId, k: Key, n: PageId, up: PageId, s: Store, g': Shape)
    requires internalMax >= 4
    requires WellFormed(w, g) && p in w.pages && n !in w.pages && up !in w.pages && n != up && up != INVALID_PAGE_ID
    requires s.root == w.root && s.pages.Keys == w.pages.Keys + {n}
    requires HalvedPages(w.pages[p], s.pages[p], s.pages[n], k, w.pages[p].parent, n)
    requires forall x :: x in w.pages && x != p ==> HalvedOther(w, s, p, n, x)
    requires !Moved(s.pages[n], w.pages[p].parent)
    requires var max := MaxSize(leafMax, internalMax, w.pages[p]);
      max / 2 <= s.pages[p].Size() <= max && max / 2 <= s.pages[n].Size() <= max
    requires SizesBut(leafMax, internalMax, w, p)
    requires WellFormed(Attach(s, p, k, n, up), g')
    ensures Pending(leafMax, internalMax, s, g', p, k, n, up)
  {
    assert PageOk(w, g, p);
    if p != w.root { assert PageOk(w, g, w.pages[p].parent); }
    var c, q := Attach(s, p, k, n, up), Above(s, p, up);
    forall x | x in c.pages && x != q
      ensures SizeOk(leafMax, internalMax, c, x)
    {
      SplitSizes(leafMax, internalMax, w, p, k, n, up, s, x);
    }
    if p != w.root {
      assert HalvedOther(w, s, p, n, q);
      assert SizeOk(leafMax, internalMax, w, q);
      assert c.pages[q].branches == InsertAt(w.pages[q].branches, IndexOf(w.pages[q].branches, p) + 1, Branch(k, n));
    }
  }

  lemma {:induction false} IndexOfHalf(bs: seq<Branch>, p: PageId, h: nat)
    requires IndexOf(bs, p) >= 0 && h <= |bs|
    ensures var i := IndexOf(bs, p);
      if i < h then IndexOf(bs[..h], p) == i else IndexOf(bs[h..], p) == i - h
  {
    var i := IndexOf(bs, p);
    if i < h {
      assert bs[..h][i] == bs[i];
    } else {
      assert bs[h..][i - h] == bs[i];
      var j := IndexOf(bs[h..], p);
      assert j >= 0;
      assert bs[h + j].child == p;
    }
  }

  // A branch list `q` is about to be split, and the comparison of `k` with the middle
  // key picks the half that lists `p`.
  ghost predicate Splits(bs: seq<Branch>, q: PageId, p: PageId, k: Key) {
    && |bs| >= 2
    && IndexOf(bs, p) >= 0
    && (forall m :: 0 <= m < |bs| ==> bs[m].child != q)
    && (IndexOf(bs, p) < |bs| / 2 <==> k < bs[|bs| / 2].key)
  }

  lemma FullParent(leafMax: nat, internalMax: nat, s: Store, g: Shape, p: PageId, k: Key, n: PageId, up: PageId)
    requires internalMax >= 4 && Pending(leafMax, internalMax, s, g, p, k, n, up)
    requires s.pages[p].parent != INVALID_PAGE_ID && |s.pages[s.pages[p].parent].branches| + 1 > internalMax
    ensures var q := s.pages[p].parent;
      var bs := s.pages[q].branches;
      && Splits(bs, q, p, k)
      && (forall m :: 0 <= m < |bs| ==> bs[m].child in s.pages)
      && p in g.span && q in g.span && g.span[p].height < g.span[q].height
      && (q != s.root ==> s.root in g.span && g.span[q].height < g.span[s.root].height)
  {
    var q, c := s.pages[p].parent, Attach(s, p, k, n, up);
    var bs, bs' := s.pages[q].branches, c.pages[q].branches;
    var i := IndexOf(bs, p);
    assert PageOk(c, g, q);
    forall m | 0 <= m < |bs|
      ensures bs[m].child in s.pages && bs[m].child != q
    {
      assert bs'[if m <= i then m else m + 1] == bs[m];
    }
    assert bs'[i] == bs[i];
    ChooseHalf(c, g, q, bs, i, k, n, |bs| / 2);
  }

  lemma FullParentPending(leafMax: nat, internalMax: nat, s: Store, g: Shape, p: PageId, k: Key, n: PageId, up: PageId,
                          n2: PageId, up2: PageId)
    requires internalMax >= 4 && leafMax >= 2 && Pending(leafMax, internalMax, s, g, p, k, n, up)
    requires s.pages[p].parent != INVALID_PAGE_ID && |s.pages[s.pages[p].parent].branches| + 1 > internalMax
    requires n2 !in s.pages && up2 !in s.pages && n2 != up2 && n2 != INVALID_PAGE_ID && up2 != INVALID_PAGE_ID
    ensures var q, c := s.pages[p].parent, Attach(s, p, k, n, up);
      var bs := s.pages[q].branches;
      var h := |bs| / 2;
      var s2 := Store(SplitThenInsert(s.pages, q, h, n2, IndexOf(bs, p), k, n), s.root);
      && q in c.pages && q in g.span && |g.chain| > 0
      && var g2 := SplitShape(c, g, q, bs[h].key, n2, up2, 0);
        && Pending(leafMax, internalMax, s2, g2, q, bs[h].key, n2, up2)
        && Entries(Attach(s2, q, bs[h].key, n2, up2).pages, g2.chain) == Entries(c.pages, g.chain)
  {
    FullParent(leafMax, internalMax, s, g, p, k, n, up);
    var q, c := s.pages[p].parent, Attach(s, p, k, n, up);
    var bs := s.pages[q].branches;
    var i, h := IndexOf(bs, p), |bs| / 2;
    var j := if i < h then h + 1 else h;
    assert c.pages[q].branches[j] == bs[h];
    SplitThenInsertIs(c, g, s.pages, q, h, n2, i, k, n);
    assert PageOk(c, g, q);
    SplitPending(leafMax, internalMax, c, g, q, j, n2, up2, 0);
  }

  // One level up there is one level less to climb.
  lemma ClimbLess(leafMax: nat, internalMax: nat, s: Store, g: Shape, p: PageId, k: Key, n: PageId, up: PageId,
                  n2: PageId, up2: PageId, k2: Key, s2: Store)
    requires internalMax >= 4 && Pending(leafMax, internalMax, s, g, p, k, n, up)
    requires s.pages[p].parent != INVALID_PAGE_ID && |s.pages[s.pages[p].parent].branches| + 1 > internalMax
    requires n2 !in s.pages && up2 !in s.pages && s2.root == s.root
    requires var q, c := s.pages[p].parent, Attach(s, p, k, n, up);
      && q in c.pages && q in g.span && |g.chain| > 0 && q in s2.pages
      && Pending(leafMax, internalMax, s2, SplitShape(c, g, q, k2, n2, up2, 0), q, k2, n2, up2)
    ensures var q, c := s.pages[p].parent, Attach(s, p, k, n, up);
      Climb(s2, SplitShape(c, g, q, k2, n2, up2, 0), q) < Climb(s, g, p)
  {
    FullParent(leafMax, internalMax, s, g, p, k, n, up);
    assert PageOk(Attach(s, p, k, n, up), g, s.root);
  }

  lemma SplitFull(pages: map<PageId, Page>, q: PageId, h: nat, n2: PageId)
    requires q in pages && pages[q].Internal? && h < |pages[q].branches| && n2 !in pages
    requires forall m :: 0 <= m < |pages[q].branches| ==> pages[q].branches[m].child in pages && pages[q].branches[m].child != q
    ensures var parts := SplitPages(pages, q, h, n2);
      && q in parts && n2 in parts
      && parts[q] == Internal(pages[q].parent, pages[q].branches[..h])
      && parts[n2] == Internal(pages[q].parent, pages[q].branches[h..])
  {
    var tail := pages[q].branches[h..];
    assert forall m :: 0 <= m < |tail| ==> tail[m] == pages[q].branches[h + m];
  }

  // ----- One entry more, one entry less -----

  lemma ListInsert(before: seq<Entry>, es: seq<Entry>, i: nat, e: Entry, rest: seq<Entry>)
    requires i <= |es| && Sorted(before + InsertAt(es, i, e) + rest)
    ensures Sorted(before + es + rest)
    ensures e.key !in ToMap(before + es + rest)
    ensures ToMap(before + InsertAt(es, i, e) + rest) == ToMap(before + es + rest)[e.key := e.rid]
    ensures ToMap(before + es + rest) == ToMap(before + InsertAt(es, i, e) + rest) - {e.key}
  {
    var xs, ys := before + es[..i], es[i..] + rest;
    assert es == es[..i] + es[i..];
    assert before + es + rest == xs + ys;
    assert before + InsertAt(es, i, e) + rest == xs + [e] + ys;
    ToMapInsert(xs, e, ys);
  }

  lemma AddEntry(s: Store, g: Shape, p: PageId, a: nat, i: nat, e: Entry)
    requires WellFormed(s, g) && p in s.pages && s.pages[p].Leaf? && p in g.span
    requires a < |g.chain| && g.chain[a] == p
    requires i <= |s.pages[p].entries| && Sorted(InsertAt(s.pages[p].entries, i, e))
    requires Within(e.key, g.span[p].lo, g.span[p].hi)
    ensures var s' := SetEntries(s, p, InsertAt(s.pages[p].entries, i, e));
      && WellFormed(s', g)
      && Sorted(Entries(s.pages, g.chain)) && Sorted(Entries(s'.pages, g.chain))
      && e.key !in ToMap(Entries(s.pages, g.chain))
      && ToMap(Entries(s'.pages, g.chain)) == ToMap(Entries(s.pages, g.chain))[e.key := e.rid]
  {
    var es := s.pages[p].entries;
    var es' := InsertAt(es, i, e);
    assert PageOk(s, g, p);
    AllWithin(es, i, e, g.span[p].lo, g.span[p].hi);
    SetEntriesKeepsTree(s, g, p, es');
    SetEntriesEntries(s, g, p, es', a);
    EntriesAround(s.pages, g.chain, a);
    EntriesSorted(SetEntries(s, p, es'), g);
    ListInsert(Before(s, g, a), es, i, e, After(s, g, a));
  }

  lemma AllWithin(es: seq<Entry>, i: nat, e: Entry, lo: Bound, hi: Bound)
    requires i <= |es| && Within(e.key, lo, hi)
    requires forall m :: 0 <= m < |es| ==> Within(es[m].key, lo, hi)
    ensures forall m :: 0 <= m < |InsertAt(es, i, e)| ==> Within(InsertAt(es, i, e)[m].key, lo, hi)
  {
    var es' := InsertAt(es, i, e);
    assert forall m :: 0 <= m < |es'| ==> es'[m] == if m < i then es[m] else if m == i then e else es[m - 1];
  }

  lemma DropEntry(s: Store, g: Shape, p: PageId, a: nat, i: nat)
    requires WellFormed(s, g) && p in s.pages && s.pages[p].Leaf?
    requires a < |g.chain| && g.chain[a] == p
    requires i < |s.pages[p].entries|
    ensures var es := s.pages[p].entries;
      var s' := SetEntries(s, p, es[..i] + es[i + 1..]);
      && WellFormed(s', g)
      && Sorted(Entries(s.pages, g.chain)) && Sorted(Entries(s'.pages, g.chain))
      && ToMap(Entries(s'.pages, g.chain)) == ToMap(Entries(s.pages, g.chain)) - {es[i].key}
  {
    var es := s.pages[p].entries;
    var es' := es[..i] + es[i + 1..];
    DropKeepsTree(s, g, p, i, es');
    assert es == InsertAt(es', i, es[i]);
    SetEntriesEntries(s, g, p, es', a);
    EntriesAround(s.pages, g.chain, a);
    EntriesSorted(s, g);
    ListInsert(Before(s, g, a), es', i, es[i], After(s, g, a));
  }

  lemma DropKeepsTree(s: Store, g: Shape, p: PageId, i: nat, es': seq<Entry>)
    requires WellFormed(s, g) && p in s.pages && s.pages[p].Leaf? && i < |s.pages[p].entries|
    requires es' == s.pages[p].entries[..i] + s.pages[p].entries[i + 1..]
    ensures WellFormed(SetEntries(s, p, es'), g)
  {
    var es := s.pages[p].entries;
    assert PageOk(s, g, p);
    assert forall m :: 0 <= m < |es'| ==> es'[m] == es[if m < i then m else m + 1];
    SetEntriesKeepsTree(s, g, p, es');
  }

  // Changing a leaf's entries changes no other page's size.
  lemma SetEntriesSizes(leafMax: nat, internalMax: nat, s: Store, p: PageId, es: seq<Entry>, x: PageId)
    requires p in s.pages && s.pages[p].Leaf? && SizesBut(leafMax, internalMax, s, INVALID_PAGE_ID)
    requires x == p || SizeOk(leafMax, internalMax, SetEntries(s, p, es), p)
    requires INVALID_PAGE_ID !in s.pages
    ensures SizesBut(leafMax, internalMax, SetEntries(s, p, es), x)
  {
    var s' := SetEntries(s, p, es);
    forall y | y in s'.pages && y != x
      ensures SizeOk(leafMax, internalMax, s', y)
    {
      if y != p { assert SizeOk(leafMax, internalMax, s, y); }
    }
  }

  // An entry inserted into one half of a sorted leaf, on the side of the middle key it
  // belongs to, is where a sorted insert into the whole leaf puts it.
  lemma InsertLeft(left: seq<Entry>, right: seq<Entry>, i: nat, e: Entry)
    requires |left| > 0 && |right| > 0 && Sorted(right) && i <= |left| && Sorted(InsertAt(left, i, e))
    requires left[|left| - 1].key < right[0].key && e.key < right[0].key
    ensures InsertAt(left, i, e) + right == InsertAt(left + right, i, e)
    ensures Sorted(InsertAt(left, i, e) + right)
  {
    var left' := InsertAt(left, i, e);
    assert left'[|left'| - 1] == if i == |left| then e else left[|left| - 1];
    SortedJoin(left', right);
  }

  lemma InsertRight(left: seq<Entry>, right: seq<Entry>, i: nat, e: Entry)
    requires |left| > 0 && |right| > 0 && Sorted(left) && i <= |right| && Sorted(InsertAt(right, i, e))
    requires left[|left| - 1].key < right[0].key < e.key
    ensures left + InsertAt(right, i, e) == InsertAt(left + right, |left| + i, e)
    ensures Sorted(left + InsertAt(right, i, e)) && InsertAt(right, i, e)[0] == right[0]
  {
    var right' := InsertAt(right, i, e);
    assert right'[if i == 0 then 1 else 0] == right[0] && right'[i] == e;
    SortedJoin(left, right');
  }

  lemma SortedJoin(xs: seq<Entry>, ys: seq<Entry>)
    requires Sorted(xs) && Sorted(ys)
    requires |xs| > 0 && |ys| > 0 ==> xs[|xs| - 1].key < ys[0].key
    ensures Sorted(xs + ys)
  {
    forall x, y | x in xs && y in ys
      ensures x.key < y.key
    {
      var i :| 0 <= i < |xs| && xs[i] == x;
      var j :| 0 <= j < |ys| && ys[j] == y;
    }
    SortedConcat(xs, ys);
  }

  // Where an insert of `key` into a full leaf ends up cutting the leaf.
  function LeafCut(es: seq<Entry>, key: Key): (j: nat)
    requires |es| >= 2
    ensures |es| / 2 <= j <= |es| / 2 + 1
  {
    var h := |es| / 2;
    if key < es[h].key then h + 1 else h
  }

  // Leaf `p` got entry `e` in slot `i` and was split: page `n` has its upper part, from
  // key `k` on.
  ghost predicate LeafSplit(pages: map<PageId, Page>, pages': map<PageId, Page>, p: PageId, i: nat, e: Entry, n: PageId, k: Key) {
    && p in pages && pages[p].Leaf? && |pages[p].entries| >= 2 && i <= |pages[p].entries|
    && var full, j := InsertAt(pages[p].entries, i, e), LeafCut(pages[p].entries, e.key);
      && Sorted(full) && k == full[j].key
      && pages' == SplitPages(pages[p := pages[p].(entries := full)], p, j, n)
  }

  lemma LeafPending(leafMax: nat, internalMax: nat, s: Store, g: Shape, p: PageId, a: nat, i: nat, e: Entry, n: PageId, up: PageId,
                    pages': map<PageId, Page>, k: Key) returns (g': Shape, es: seq<Entry>)
    requires leafMax >= 2 && internalMax >= 4 && WellFormed(s, g) && SizesBut(leafMax, internalMax, s, INVALID_PAGE_ID)
    requires p in s.pages && s.pages[p].Leaf? && p in g.span && a < |g.chain| && g.chain[a] == p
    requires Within(e.key, g.span[p].lo, g.span[p].hi) && |s.pages[p].entries| == leafMax
    requires n !in s.pages && up !in s.pages && n != up && n != INVALID_PAGE_ID && up != INVALID_PAGE_ID
    requires LeafSplit(s.pages, pages', p, i, e, n, k)
    ensures p in pages' && n in pages'
    ensures Pending(leafMax, internalMax, Store(pages', s.root), g', p, k, n, up)
    ensures Entries(Attach(Store(pages', s.root), p, k, n, up).pages, g'.chain) == es
    ensures Sorted(Entries(s.pages, g.chain)) && Sorted(es)
    ensures ToMap(es) == ToMap(Entries(s.pages, g.chain))[e.key := e.rid]
  {
    var full := InsertAt(s.pages[p].entries, i, e);
    var w := SetEntries(s, p, full);
    AddEntry(s, g, p, a, i, e);
    forall x | x in s.pages ensures x != INVALID_PAGE_ID { assert PageOk(s, g, x); }
    SetEntriesSizes(leafMax, internalMax, s, p, full, p);
    SplitPending(leafMax, internalMax, w, g, p, LeafCut(s.pages[p].entries, e.key), n, up, a);
    g', es := SplitShape(w, g, p, k, n, up, a), Entries(w.pages, g.chain);
  }

  // The pages of a split leaf whose halves were filled up to `l` and `r`.
  lemma SplitLeafIs(pages: map<PageId, Page>, p: PageId, n: PageId, l: seq<Entry>, r: seq<Entry>, pages': map<PageId, Page>)
    requires p in pages && pages[p].Leaf? && n != p
    requires var pg := pages[p];
      pages' == pages[p := Leaf(pg.parent, n, l)][n := Leaf(pg.parent, pg.next, r)]
    ensures pages' == SplitPages(pages[p := pages[p].(entries := l + r)], p, |l|, n)
  {
    assert (l + r)[..|l|] == l && (l + r)[|l|..] == r;
  }
}
