/**
 Splitting a page in two, and merging two neighbours into one, are one relation read
 in two directions: `Halved` relates a store where page `p` holds a run of slots to
 the store where `p` keeps the front of that run and page `n` holds the rest, linked
 right after `p` under their parent `q`.  Both directions keep a B+ tree a B+ tree
 and its entries.  Growing and collapsing the root are a second such relation.
 */
module BPlusTreeSplit {
  import opened BPlusTreeShape

  function InsertAt<T>(s: seq<T>, i: nat, x: T): seq<T>
    requires i <= |s|
  {
    s[..i] + [x] + s[i..]
  }

  // The slots of two internal neighbours in one page: the separator from the parent
  // comes down as the key of the right page's first child.
  function Joined(a: seq<Branch>, k: Key, b: seq<Branch>): seq<Branch>
    requires |b| > 0
  {
    a + [Branch(k, b[0].child)] + b[1..]
  }

  // The page `p` of `w` is cut into the pages `p` and `n` of `c`.
  ghost predicate HalvedPages(pw: Page, pc: Page, nc: Page, k: Key, q: PageId, n: PageId) {
    && pw.parent == pc.parent == nc.parent == q
    && if pw.Leaf? then
         && pc.Leaf? && nc.Leaf?
         && pc.next == n && nc.next == pw.next
         && pw.entries == pc.entries + nc.entries
       else
         && pc.Internal? && nc.Internal?
         && |pc.branches| > 0 && |nc.branches| > 0
         && pw.branches == Joined(pc.branches, k, nc.branches)
  }

  ghost predicate HalvedParent(qw: Page, qc: Page, p: PageId, i: nat, k: Key, n: PageId) {
    && qw.Internal? && qc.Internal?
    && qw.parent == qc.parent
    && i < |qw.branches| && qw.branches[i].child == p
    && qc.branches == InsertAt(qw.branches, i + 1, Branch(k, n))
  }

  predicate Moved(nc: Page, x: PageId) {
    nc.Internal? && HasChild(nc.branches, x)
  }

  // Any other page is the same in both stores, up to the parent id of a moved page.
  ghost predicate HalvedOther(w: Store, c: Store, p: PageId, n: PageId, x: PageId)
    requires n in c.pages
  {
    && x in w.pages && x in c.pages
    && if Moved(c.pages[n], x) then
         w.pages[x].parent == p && c.pages[x] == w.pages[x].(parent := n)
       else
         c.pages[x] == w.pages[x]
  }

  ghost predicate HalvedChain(w: seq<PageId>, c: seq<PageId>, p: PageId, n: PageId, leaf: bool) {
    if leaf then
      exists a :: 0 <= a < |w| && w[a] == p && c == InsertAt(w, a + 1, n)
    else
      c == w
  }

  ghost predicate Halved(w: Store, gw: Shape, c: Store, gc: Shape,
                         p: PageId, q: PageId, i: nat, k: Key, n: PageId)
  {
    && w.root == c.root && p != w.root && p != q && n != INVALID_PAGE_ID
    && p in w.pages && q in w.pages && n !in w.pages
    && c.pages.Keys == w.pages.Keys + {n}
    && HalvedPages(w.pages[p], c.pages[p], c.pages[n], k, q, n)
    && HalvedParent(w.pages[q], c.pages[q], p, i, k, n)
    && !Moved(c.pages[n], p) && !Moved(c.pages[n], q)
    && (forall x {:trigger HalvedOther(w, c, p, n, x)} :: x in w.pages && x != p && x != q ==> HalvedOther(w, c, p, n, x))
    && p in gw.span && p in gc.span && n in gc.span
    && gc.span[p] == gw.span[p].(hi := At(k))
    && gc.span[n] == gw.span[p].(lo := At(k))
    && (forall x :: x in w.pages && x != p ==> (x in gw.span <==> x in gc.span))
    && (forall x :: x in w.pages && x != p && x in gw.span ==> gw.span[x] == gc.span[x])
    && HalvedChain(gw.chain, gc.chain, p, n, w.pages[p].Leaf?)
  }

  // ----- From one page to two -----

  // A cut of a well-formed page at a slot that keeps something on both sides.
  ghost predicate CutOf(w: Store, gw: Shape, c: Store, gc: Shape,
                        p: PageId, q: PageId, i: nat, k: Key, n: PageId)
  {
    && Halved(w, gw, c, gc, p, q, i, k, n)
    && WellFormed(w, gw)
    && (w.pages[p].Leaf? ==>
          && |c.pages[p].entries| > 0 && |c.pages[n].entries| > 0
          && k == c.pages[n].entries[0].key)
  }

  lemma CutOther(w: Store, gw: Shape, c: Store, gc: Shape,
                 p: PageId, q: PageId, i: nat, k: Key, n: PageId, x: PageId)
    requires CutOf(w, gw, c, gc, p, q, i, k, n)
    requires x in w.pages && x != p && x != q
    ensures PageOk(c, gc, x)
  {
    assert HalvedOther(w, c, p, n, x);
    assert PageOk(w, gw, x);
    CutOtherParent(w, gw, c, gc, p, q, i, k, n, x);
    if w.pages[x].Internal? {
      var bs := w.pages[x].branches;
      forall m | 0 <= m < |bs|
        ensures ChildOk(c, gc, x, bs[m].child, ChildSpan(bs, m, gc.span[x]))
      {
        var y := bs[m].child;
        assert PageOk(w, gw, p);
        assert ChildOk(w, gw, x, y, ChildSpan(bs, m, gw.span[x]));
        if y != q {
          assert HalvedOther(w, c, p, n, y);
        }
      }
    }
  }

  lemma CutOtherParent(w: Store, gw: Shape, c: Store, gc: Shape,
                       p: PageId, q: PageId, i: nat, k: Key, n: PageId, x: PageId)
    requires CutOf(w, gw, c, gc, p, q, i, k, n)
    requires x in w.pages && x != p && x != q
    ensures x in c.pages && x in gc.span && ParentOk(c, gc, x)
  {
    assert HalvedOther(w, c, p, n, x);
    assert PageOk(w, gw, x);
    if x != w.root {
      var r := w.pages[x].parent;
      if Moved(c.pages[n], x) {
        assert HasChild(c.pages[n].branches, x);
      } else {
        CutHasChild(w, gw, c, gc, p, q, i, k, n, r, x);
      }
    }
    assert PageOk(w, gw, w.root) && PageOk(w, gw, p);
  }

  // A child that does not move stays listed under its parent.
  lemma CutHasChild(w: Store, gw: Shape, c: Store, gc: Shape,
                    p: PageId, q: PageId, i: nat, k: Key, n: PageId, r: PageId, x: PageId)
    requires Halved(w, gw, c, gc, p, q, i, k, n)
    requires r in w.pages && w.pages[r].Internal? && HasChild(w.pages[r].branches, x)
    ensures r in c.pages && c.pages[r].Internal? && (HasChild(c.pages[r].branches, x) || Moved(c.pages[n], x))
  {
    var bs := w.pages[r].branches;
    var m :| 0 <= m < |bs| && bs[m].child == x;
    if r == p {
      var a := c.pages[p].branches;
      if m < |a| {
        assert a[m].child == x;
      } else {
        assert c.pages[n].branches[m - |a|].child == x;
      }
    } else if r == q {
      assert c.pages[q].branches[if m <= i then m else m + 1].child == x;
    } else {
      assert HalvedOther(w, c, p, n, r);
    }
  }

  lemma DistinctChildren(s: Store, g: Shape, p: PageId, i: nat, j: nat)
    requires WellFormed(s, g)
    requires p in s.pages && s.pages[p].Internal?
    requires i < |s.pages[p].branches| && j < |s.pages[p].branches|
    requires s.pages[p].branches[i].child == s.pages[p].branches[j].child
    ensures i == j
  {
    if i < j {
      assert PageOk(s, g, p);
      SeparatorsIncreasing(s, g, p, i, j);
      assert false;
    } else if j < i {
      assert PageOk(s, g, p);
      SeparatorsIncreasing(s, g, p, j, i);
      assert false;
    }
  }

  // The separator lies strictly inside the interval it divides.
  lemma CutKey(w: Store, gw: Shape, c: Store, gc: Shape,
               p: PageId, q: PageId, i: nat, k: Key, n: PageId)
    requires CutOf(w, gw, c, gc, p, q, i, k, n)
    ensures p in gw.span && Lt(gw.span[p].lo, At(k)) && Lt(At(k), gw.span[p].hi)
  {
    assert PageOk(w, gw, p);
    if w.pages[p].Leaf? {
      var es := w.pages[p].entries;
      assert es[|c.pages[p].entries|].key == k;
      assert es[0].key < k;
    } else {
      var bs, a := w.pages[p].branches, c.pages[p].branches;
      assert bs[|a|].key == k;
      SeparatorsIncreasing(w, gw, p, 0, |a|);
      assert PageOk(w, gw, bs[|a|].child);
      if |a| + 1 < |bs| {
        SeparatorsIncreasing(w, gw, p, |a|, |bs| - 1);
      }
    }
  }

  lemma CutLeftChild(w: Store, gw: Shape, c: Store, gc: Shape,
                     p: PageId, q: PageId, i: nat, k: Key, n: PageId, m: nat)
    requires CutOf(w, gw, c, gc, p, q, i, k, n)
    requires w.pages[p].Internal? && m < |c.pages[p].branches|
    requires gc.span[p].height > 0
    ensures ChildOk(c, gc, p, c.pages[p].branches[m].child, ChildSpan(c.pages[p].branches, m, gc.span[p]))
  {
    assert PageOk(w, gw, p);
    var bs, a := w.pages[p].branches, c.pages[p].branches;
    assert a[m] == bs[m];
    assert m + 1 < |bs| && (if m + 1 < |a| then a[m + 1] == bs[m + 1] else bs[m + 1].key == k);
    var y := bs[m].child;
    assert ChildOk(w, gw, p, y, ChildSpan(bs, m, gw.span[p]));
    assert PageOk(w, gw, q);
    assert HalvedOther(w, c, p, n, y);
    if Moved(c.pages[n], y) {
      var b := c.pages[n].branches;
      var m' :| 0 <= m' < |b| && b[m'].child == y;
      assert bs[|a| + m'].child == y;
      DistinctChildren(w, gw, p, m, |a| + m');
      assert false;
    }
  }

  lemma CutLeft(w: Store, gw: Shape, c: Store, gc: Shape,
                p: PageId, q: PageId, i: nat, k: Key, n: PageId)
    requires CutOf(w, gw, c, gc, p, q, i, k, n)
    ensures p in c.pages && PageOk(c, gc, p)
  {
    assert PageOk(w, gw, p);
    CutKey(w, gw, c, gc, p, q, i, k, n);
    assert c.pages[q].branches[i].child == p;
    if w.pages[p].Internal? {
      forall m | 0 <= m < |c.pages[p].branches|
        ensures ChildOk(c, gc, p, c.pages[p].branches[m].child, ChildSpan(c.pages[p].branches, m, gc.span[p]))
      {
        CutLeftChild(w, gw, c, gc, p, q, i, k, n, m);
      }
    } else {
      var es, a := w.pages[p].entries, c.pages[p].entries;
      assert es[|a|].key == k;
      assert forall m :: 0 <= m < |a| ==> a[m] == es[m];
    }
  }

  lemma CutRightChild(w: Store, gw: Shape, c: Store, gc: Shape,
                      p: PageId, q: PageId, i: nat, k: Key, n: PageId, m: nat)
    requires CutOf(w, gw, c, gc, p, q, i, k, n)
    requires w.pages[p].Internal? && m < |c.pages[n].branches|
    requires gc.span[n].height > 0
    ensures ChildOk(c, gc, n, c.pages[n].branches[m].child, ChildSpan(c.pages[n].branches, m, gc.span[n]))
  {
    assert PageOk(w, gw, p);
    var bs, a, b := w.pages[p].branches, c.pages[p].branches, c.pages[n].branches;
    var m' := |a| + m;
    assert bs[m'].child == b[m].child;
    assert bs[m'].key == (if m == 0 then k else b[m].key);
    assert m + 1 < |b| ==> bs[m' + 1] == b[m + 1];
    var y := bs[m'].child;
    assert ChildOk(w, gw, p, y, ChildSpan(bs, m', gw.span[p]));
    assert HalvedOther(w, c, p, n, y);
  }

  lemma CutRight(w: Store, gw: Shape, c: Store, gc: Shape,
                 p: PageId, q: PageId, i: nat, k: Key, n: PageId)
    requires CutOf(w, gw, c, gc, p, q, i, k, n)
    ensures n in c.pages && PageOk(c, gc, n)
  {
    assert PageOk(w, gw, p);
    CutKey(w, gw, c, gc, p, q, i, k, n);
    assert c.pages[q].branches[i + 1].child == n;
    if w.pages[p].Internal? {
      forall m | 0 <= m < |c.pages[n].branches|
        ensures ChildOk(c, gc, n, c.pages[n].branches[m].child, ChildSpan(c.pages[n].branches, m, gc.span[n]))
      {
        CutRightChild(w, gw, c, gc, p, q, i, k, n, m);
      }
    } else {
      var es, a, b := w.pages[p].entries, c.pages[p].entries, c.pages[n].entries;
      assert forall m :: 0 <= m < |b| ==> b[m] == es[|a| + m];
    }
  }

  lemma CutParent(w: Store, gw: Shape, c: Store, gc: Shape,
                  p: PageId, q: PageId, i: nat, k: Key, n: PageId)
    requires CutOf(w, gw, c, gc, p, q, i, k, n)
    ensures q in c.pages && PageOk(c, gc, q)
  {
    assert PageOk(w, gw, p);
    assert PageOk(w, gw, q);
    var bs := c.pages[q].branches;
    forall m | 0 <= m < |bs|
      ensures ChildOk(c, gc, q, bs[m].child, ChildSpan(bs, m, gc.span[q]))
    {
      if m == i || m == i + 1 {
        CutHalf(w, gw, c, gc, p, q, i, k, n, m);
      } else {
        CutSibling(w, gw, c, gc, p, q, i, k, n, m, if m < i then m else m - 1);
      }
    }
    CutGrandparent(w, gw, c, gc, p, q, i, k, n);
  }

  // The two halves are children of the parent,
  lemma CutHalf(w: Store, gw: Shape, c: Store, gc: Shape,
                p: PageId, q: PageId, i: nat, k: Key, n: PageId, m: nat)
    requires CutOf(w, gw, c, gc, p, q, i, k, n) && (m == i || m == i + 1)
    ensures q in gc.span && gc.span[q].height > 0
    ensures var bs := c.pages[q].branches;
      m < |bs| && ChildOk(c, gc, q, bs[m].child, ChildSpan(bs, m, gc.span[q]))
  {
    assert PageOk(w, gw, p);
    assert PageOk(w, gw, q);
    var bs := w.pages[q].branches;
    assert ChildOk(w, gw, q, bs[i].child, ChildSpan(bs, i, gw.span[q]));
  }

  // the others stay so,
  lemma CutSibling(w: Store, gw: Shape, c: Store, gc: Shape,
                   p: PageId, q: PageId, i: nat, k: Key, n: PageId, m: nat, m0: nat)
    requires CutOf(w, gw, c, gc, p, q, i, k, n)
    requires m < |c.pages[q].branches| && ((m < i && m0 == m) || (m > i + 1 && m0 == m - 1))
    ensures q in gc.span && gc.span[q].height > 0
    ensures var bs := c.pages[q].branches;
      ChildOk(c, gc, q, bs[m].child, ChildSpan(bs, m, gc.span[q]))
  {
    assert PageOk(w, gw, q);
    var bs, bs' := w.pages[q].branches, c.pages[q].branches;
    assert bs'[m] == bs[m0];
    var y := bs[m0].child;
    assert ChildOk(w, gw, q, y, ChildSpan(bs, m0, gw.span[q]));
    if y == p { DistinctChildren(w, gw, q, m0, i); }
    assert HalvedOther(w, c, p, n, y);
    assert ChildSpan(bs', m, gw.span[q]) == ChildSpan(bs, m0, gw.span[q]);
  }

  // and its own parent lists it.
  lemma CutGrandparent(w: Store, gw: Shape, c: Store, gc: Shape,
                       p: PageId, q: PageId, i: nat, k: Key, n: PageId)
    requires CutOf(w, gw, c, gc, p, q, i, k, n)
    ensures q in c.pages && q in gc.span && ParentOk(c, gc, q)
  {
    assert PageOk(w, gw, p);
    assert PageOk(w, gw, q);
    if q != w.root {
      var r := w.pages[q].parent;
      var bs := w.pages[r].branches;
      var m :| 0 <= m < |bs| && bs[m].child == q;
      assert HalvedOther(w, c, p, n, r);
    }
  }

  lemma CutChain(w: Store, gw: Shape, c: Store, gc: Shape,
                 p: PageId, q: PageId, i: nat, k: Key, n: PageId)
    requires CutOf(w, gw, c, gc, p, q, i, k, n)
    ensures ChainOk(c, gc)
  {
    if w.pages[p].Leaf? {
      var a :| 0 <= a < |gw.chain| && gw.chain[a] == p && gc.chain == InsertAt(gw.chain, a + 1, n);
      forall m | 0 <= m < |gc.chain|
        ensures LinkOk(c, gc, m)
      {
        CutLink(w, gw, c, gc, p, q, i, k, n, a, m);
      }
    } else {
      forall m | 0 <= m < |gc.chain|
        ensures LinkOk(c, gc, m)
      {
        CutLinkSame(w, gw, c, gc, p, q, i, k, n, m);
      }
    }
    forall x | x in c.pages && c.pages[x].Leaf?
      ensures x in gc.chain
    {
      CutChainHas(w, gw, c, gc, p, q, i, k, n, x);
    }
  }

  lemma CutChainHas(w: Store, gw: Shape, c: Store, gc: Shape,
                    p: PageId, q: PageId, i: nat, k: Key, n: PageId, x: PageId)
    requires CutOf(w, gw, c, gc, p, q, i, k, n)
    requires x in c.pages && c.pages[x].Leaf?
    ensures x in gc.chain
  {
    if w.pages[p].Leaf? {
      var a :| 0 <= a < |gw.chain| && gw.chain[a] == p && gc.chain == InsertAt(gw.chain, a + 1, n);
      assert gc.chain[a + 1] == n;
      InsertAtHas(gw.chain, a + 1, n, x);
    }
    if x != p && x != n && x != q { assert HalvedOther(w, c, p, n, x); }
    assert x != n ==> x in gw.chain;
  }

  lemma InsertAtHas(s: seq<PageId>, i: nat, n: PageId, x: PageId)
    requires i <= |s|
    ensures x in InsertAt(s, i, n) <==> x in s || x == n
  {
    assert s == s[..i] + s[i..];
  }

  lemma CutLinkSame(w: Store, gw: Shape, c: Store, gc: Shape,
                    p: PageId, q: PageId, i: nat, k: Key, n: PageId, m: nat)
    requires CutOf(w, gw, c, gc, p, q, i, k, n)
    requires w.pages[p].Internal? && m < |gc.chain|
    ensures LinkOk(c, gc, m)
  {
    assert LinkOk(w, gw, m);
    assert HalvedOther(w, c, p, n, gw.chain[m]);
    if m + 1 < |gc.chain| {
      assert LinkOk(w, gw, m + 1);
    }
  }

  lemma CutLink(w: Store, gw: Shape, c: Store, gc: Shape,
                p: PageId, q: PageId, i: nat, k: Key, n: PageId, a: nat, m: nat)
    requires CutOf(w, gw, c, gc, p, q, i, k, n)
    requires w.pages[p].Leaf?
    requires a < |gw.chain| && gw.chain[a] == p && gc.chain == InsertAt(gw.chain, a + 1, n)
    requires m < |gc.chain|
    ensures LinkOk(c, gc, m)
  {
    var m0 := if m <= a then m else m - 1;
    assert LinkOk(w, gw, m0);
    assert LinkOk(w, gw, a);
    if m0 + 1 < |gw.chain| {
      assert LinkOk(w, gw, m0 + 1);
      NotTwiceInChain(w, gw, a, m0 + 1);
    }
    if m0 != a {
      NotTwiceInChain(w, gw, a, m0);
      assert HalvedOther(w, c, p, n, gw.chain[m0]);
    }
  }

  lemma NotTwiceInChain(w: Store, gw: Shape, a: nat, m: nat)
    requires WellFormed(w, gw) && a < |gw.chain| && m < |gw.chain|
    ensures a != m ==> gw.chain[a] != gw.chain[m]
  {
    if a < m {
      ChainIncreasing(w, gw, a, m);
    } else if m < a {
      ChainIncreasing(w, gw, m, a);
    }
  }

  /** Cutting a page of a B+ tree leaves a B+ tree with the same entries. */
  lemma CutKeepsTree(w: Store, gw: Shape, c: Store, gc: Shape,
                     p: PageId, q: PageId, i: nat, k: Key, n: PageId)
    requires CutOf(w, gw, c, gc, p, q, i, k, n)
    ensures WellFormed(c, gc)
  {
    forall x | x in c.pages
      ensures PageOk(c, gc, x)
    {
      if x == p {
        CutLeft(w, gw, c, gc, p, q, i, k, n);
      } else if x == n {
        CutRight(w, gw, c, gc, p, q, i, k, n);
      } else if x == q {
        CutParent(w, gw, c, gc, p, q, i, k, n);
      } else {
        CutOther(w, gw, c, gc, p, q, i, k, n, x);
      }
    }
    CutChain(w, gw, c, gc, p, q, i, k, n);
  }

  lemma HalvedSameLeaf(w: Store, gw: Shape, c: Store, gc: Shape,
                       p: PageId, q: PageId, i: nat, k: Key, n: PageId, x: PageId)
    requires Halved(w, gw, c, gc, p, q, i, k, n)
    requires x in w.pages && (x != p || w.pages[p].Internal?)
    ensures LeafEntries(c.pages, x) == LeafEntries(w.pages, x)
  {
    if x != p && x != q {
      assert HalvedOther(w, c, p, n, x);
    }
  }

  lemma {:induction false} EntriesCut(pages: map<PageId, Page>, pages': map<PageId, Page>, chain: seq<PageId>, a: nat, n: PageId)
    requires a < |chain|
    requires forall m :: 0 <= m < |chain| && m != a ==> LeafEntries(pages, chain[m]) == LeafEntries(pages', chain[m])
    requires LeafEntries(pages, chain[a]) == LeafEntries(pages', chain[a]) + LeafEntries(pages', n)
    ensures Entries(pages', InsertAt(chain, a + 1, n)) == Entries(pages, chain)
  {
    var chain' := InsertAt(chain, a + 1, n);
    assert chain'[0] == chain[0];
    if a == 0 {
      EntriesCutFirst(pages, pages', chain, n);
    } else {
      assert chain'[1..] == InsertAt(chain[1..], a, n);
      EntriesCut(pages, pages', chain[1..], a - 1, n);
    }
  }

  lemma EntriesCutFirst(pages: map<PageId, Page>, pages': map<PageId, Page>, chain: seq<PageId>, n: PageId)
    requires |chain| > 0
    requires forall m :: 0 < m < |chain| ==> LeafEntries(pages, chain[m]) == LeafEntries(pages', chain[m])
    requires LeafEntries(pages, chain[0]) == LeafEntries(pages', chain[0]) + LeafEntries(pages', n)
    ensures Entries(pages', InsertAt(chain, 1, n)) == Entries(pages, chain)
  {
    var x, rest := chain[0], chain[1..];
    assert InsertAt(chain, 1, n) == [x] + ([n] + rest);
    EntriesFrame(pages, pages', rest);
    EntriesOfFirst(pages', x, [n] + rest);
    EntriesOfFirst(pages', n, rest);
    var a, b, c := LeafEntries(pages', x), LeafEntries(pages', n), Entries(pages', rest);
    assert a + (b + c) == (a + b) + c;
  }

  lemma EntriesOfFirst(pages: map<PageId, Page>, x: PageId, rest: seq<PageId>)
    ensures Entries(pages, [x] + rest) == LeafEntries(pages, x) + Entries(pages, rest)
  {
    assert ([x] + rest)[1..] == rest;
  }

  lemma HalvedEntries(w: Store, gw: Shape, c: Store, gc: Shape,
                      p: PageId, q: PageId, i: nat, k: Key, n: PageId)
    requires Halved(w, gw, c, gc, p, q, i, k, n)
    requires WellFormed(w, gw)
    ensures Entries(c.pages, gc.chain) == Entries(w.pages, gw.chain)
  {
    forall m | 0 <= m < |gw.chain| && (gw.chain[m] != p || w.pages[p].Internal?)
      ensures LeafEntries(w.pages, gw.chain[m]) == LeafEntries(c.pages, gw.chain[m])
    {
      assert LinkOk(w, gw, m);
      HalvedSameLeaf(w, gw, c, gc, p, q, i, k, n, gw.chain[m]);
    }
    if w.pages[p].Leaf? {
      var a :| 0 <= a < |gw.chain| && gw.chain[a] == p && gc.chain == InsertAt(gw.chain, a + 1, n);
      forall m | 0 <= m < |gw.chain| && m != a
        ensures gw.chain[m] != p
      {
        ChainIncreasing(w, gw, if m < a then m else a, if m < a then a else m);
      }
      EntriesCut(w.pages, c.pages, gw.chain, a, n);
    } else {
      EntriesFrame(w.pages, c.pages, gw.chain);
    }
  }

  // ----- From two pages to one -----

  ghost predicate JoinOf(w: Store, gw: Shape, c: Store, gc: Shape,
                         p: PageId, q: PageId, i: nat, k: Key, n: PageId)
  {
    && Halved(w, gw, c, gc, p, q, i, k, n)
    && WellFormed(c, gc)
  }

  lemma JoinParentLinks(w: Store, gw: Shape, c: Store, gc: Shape,
                        p: PageId, q: PageId, i: nat, k: Key, n: PageId)
    requires JoinOf(w, gw, c, gc, p, q, i, k, n)
    ensures p in gc.span && q in gc.span && n in gc.span
    ensures c.pages[q].branches[i].child == p && c.pages[q].branches[i + 1].child == n
    ensures Lt(gc.span[p].lo, gc.span[n].hi)
    ensures Lt(gc.span[p].lo, At(k)) && Lt(At(k), gc.span[n].hi)
  {
    assert PageOk(c, gc, p);
    assert PageOk(c, gc, q);
    assert PageOk(c, gc, n);
  }

  lemma JoinOtherParent(w: Store, gw: Shape, c: Store, gc: Shape,
                        p: PageId, q: PageId, i: nat, k: Key, n: PageId, x: PageId)
    requires JoinOf(w, gw, c, gc, p, q, i, k, n)
    requires x in w.pages && x != p && x != q
    ensures x in gw.span && ParentOk(w, gw, x)
  {
    assert HalvedOther(w, c, p, n, x);
    assert PageOk(c, gc, x);
    JoinRoot(w, gw, c, gc, p, q, i, k, n);
    JoinMoved(w, gw, c, gc, p, q, i, k, n, x);
    if x != w.root {
      var r := c.pages[x].parent;
      JoinHasChild(w, gw, c, gc, p, q, i, k, n, r, x);
      if r != p && r != n && r != q {
        assert HalvedOther(w, c, p, n, r);
      }
    }
  }

  lemma JoinRoot(w: Store, gw: Shape, c: Store, gc: Shape,
                 p: PageId, q: PageId, i: nat, k: Key, n: PageId)
    requires JoinOf(w, gw, c, gc, p, q, i, k, n)
    ensures w.root in w.pages && w.root in gw.span && w.root in gc.span && gw.span[w.root] == gc.span[w.root]
  {
    assert PageOk(c, gc, n);
    assert PageOk(c, gc, q);
    assert PageOk(c, gc, c.root);
  }

  // The children listed under `p` and `n` are listed under `p` in the joined store.
  lemma JoinHasChild(w: Store, gw: Shape, c: Store, gc: Shape,
                     p: PageId, q: PageId, i: nat, k: Key, n: PageId, r: PageId, x: PageId)
    requires Halved(w, gw, c, gc, p, q, i, k, n)
    requires r in c.pages && c.pages[r].Internal? && HasChild(c.pages[r].branches, x) && x != n
    ensures var r' := if r == n then p else r;
      r' in w.pages && w.pages[r'].Internal? && HasChild(w.pages[r'].branches, x)
  {
    var bs := c.pages[r].branches;
    var m :| 0 <= m < |bs| && bs[m].child == x;
    if r == p {
      assert w.pages[p].branches[m].child == x;
    } else if r == n {
      assert w.pages[p].branches[|c.pages[p].branches| + m].child == x;
    } else if r == q {
      assert w.pages[q].branches[if m <= i then m else m - 1].child == x;
    } else {
      assert HalvedOther(w, c, p, n, r);
    }
  }

  // A page listed under `n` has `n` for its parent, and no other page does.
  lemma JoinMoved(w: Store, gw: Shape, c: Store, gc: Shape,
                  p: PageId, q: PageId, i: nat, k: Key, n: PageId, x: PageId)
    requires JoinOf(w, gw, c, gc, p, q, i, k, n)
    requires x in w.pages && x != p && x != q
    ensures Moved(c.pages[n], x) <==> x != c.root && c.pages[x].parent == n
  {
    assert PageOk(c, gc, n);
    assert PageOk(c, gc, x);
  }

  lemma JoinOther(w: Store, gw: Shape, c: Store, gc: Shape,
                  p: PageId, q: PageId, i: nat, k: Key, n: PageId, x: PageId)
    requires JoinOf(w, gw, c, gc, p, q, i, k, n)
    requires x in w.pages && x != p && x != q
    ensures PageOk(w, gw, x)
  {
    assert HalvedOther(w, c, p, n, x);
    assert PageOk(c, gc, x);
    JoinOtherParent(w, gw, c, gc, p, q, i, k, n, x);
    if w.pages[x].Internal? {
      var bs := w.pages[x].branches;
      forall m | 0 <= m < |bs|
        ensures ChildOk(w, gw, x, bs[m].child, ChildSpan(bs, m, gw.span[x]))
      {
        var y := bs[m].child;
        assert ChildOk(c, gc, x, y, ChildSpan(bs, m, gc.span[x]));
        assert PageOk(c, gc, p);
        assert PageOk(c, gc, n);
        if y != q {
          assert HalvedOther(w, c, p, n, y);
          JoinMoved(w, gw, c, gc, p, q, i, k, n, y);
        }
      }
    }
  }

  lemma JoinedChild(w: Store, gw: Shape, c: Store, gc: Shape,
                    p: PageId, q: PageId, i: nat, k: Key, n: PageId, m: nat)
    requires JoinOf(w, gw, c, gc, p, q, i, k, n)
    requires w.pages[p].Internal? && m < |w.pages[p].branches| && gw.span[p].height > 0
    ensures ChildOk(w, gw, p, w.pages[p].branches[m].child, ChildSpan(w.pages[p].branches, m, gw.span[p]))
  {
    var a, b := c.pages[p].branches, c.pages[n].branches;
    var y := w.pages[p].branches[m].child;
    JoinedAt(a, k, b, m, gw.span[p]);
    JoinedFrom(w, gw, c, gc, p, q, i, k, n, m);
    assert HalvedOther(w, c, p, n, y);
    JoinMoved(w, gw, c, gc, p, q, i, k, n, y);
  }

  // Slot `m` of the joined page: its child and the interval it answers for.
  lemma JoinedAt(a: seq<Branch>, k: Key, b: seq<Branch>, m: nat, sp: Span)
    requires |a| > 0 && |b| > 0 && m < |Joined(a, k, b)| && sp.height > 0
    ensures m < |a| ==> Joined(a, k, b)[m].child == a[m].child && ChildSpan(Joined(a, k, b), m, sp) == ChildSpan(a, m, sp.(hi := At(k)))
    ensures m >= |a| ==>
      && m - |a| < |b| && Joined(a, k, b)[m].child == b[m - |a|].child
      && ChildSpan(Joined(a, k, b), m, sp) == ChildSpan(b, m - |a|, sp.(lo := At(k)))
  {
    var bs := Joined(a, k, b);
    assert forall j :: 0 <= j < |bs| ==> bs[j] == if j < |a| then a[j] else if j == |a| then Branch(k, b[0].child) else b[j - |a|];
  }

  // The child was one of `p` or of `n`, and is none of the pages that change.
  lemma JoinedFrom(w: Store, gw: Shape, c: Store, gc: Shape,
                   p: PageId, q: PageId, i: nat, k: Key, n: PageId, m: nat)
    requires JoinOf(w, gw, c, gc, p, q, i, k, n)
    requires w.pages[p].Internal? && m < |w.pages[p].branches| && gw.span[p].height > 0
    requires var a, b := c.pages[p].branches, c.pages[n].branches;
      if m < |a| then w.pages[p].branches[m].child == a[m].child
      else m - |a| < |b| && w.pages[p].branches[m].child == b[m - |a|].child
    ensures var y := w.pages[p].branches[m].child;
      var a, b := c.pages[p].branches, c.pages[n].branches;
      && y != p && y != q && y in w.pages && y != c.root && y in gc.span
      && c.pages[y].parent == (if m < |a| then p else n)
      && gc.span[y] == if m < |a| then ChildSpan(a, m, gc.span[p]) else ChildSpan(b, m - |a|, gc.span[n])
  {
    var a, b := c.pages[p].branches, c.pages[n].branches;
    var y := w.pages[p].branches[m].child;
    if m < |a| {
      JoinedChildOf(w, gw, c, gc, p, q, i, k, n, p, m);
    } else {
      JoinedChildOf(w, gw, c, gc, p, q, i, k, n, n, m - |a|);
    }
  }

  // Child `m` of one of the two neighbours `z`.
  lemma JoinedChildOf(w: Store, gw: Shape, c: Store, gc: Shape,
                      p: PageId, q: PageId, i: nat, k: Key, n: PageId, z: PageId, m: nat)
    requires JoinOf(w, gw, c, gc, p, q, i, k, n)
    requires (z == p || z == n) && c.pages[z].Internal? && m < |c.pages[z].branches|
    ensures z in gc.span && gc.span[z].height > 0
    ensures var y := c.pages[z].branches[m].child;
      && y != p && y != q && y in w.pages && y != c.root && y in gc.span
      && c.pages[y].parent == z && gc.span[y] == ChildSpan(c.pages[z].branches, m, gc.span[z])
  {
    var bs := c.pages[z].branches;
    assert PageOk(c, gc, z);
    assert ChildOk(c, gc, z, bs[m].child, ChildSpan(bs, m, gc.span[z]));
    JoinHeights(w, gw, c, gc, p, q, i, k, n);
  }

  lemma JoinHeights(w: Store, gw: Shape, c: Store, gc: Shape,
                    p: PageId, q: PageId, i: nat, k: Key, n: PageId)
    requires JoinOf(w, gw, c, gc, p, q, i, k, n)
    ensures q in gc.span && gc.span[q].height == gc.span[p].height + 1 == gc.span[n].height + 1
  {
    assert PageOk(c, gc, q);
    assert c.pages[q].branches[i].child == p;
    assert ChildOk(c, gc, q, p, ChildSpan(c.pages[q].branches, i, gc.span[q]));
  }

  lemma JoinedPage(w: Store, gw: Shape, c: Store, gc: Shape,
                   p: PageId, q: PageId, i: nat, k: Key, n: PageId)
    requires JoinOf(w, gw, c, gc, p, q, i, k, n)
    ensures PageOk(w, gw, p)
  {
    JoinRoot(w, gw, c, gc, p, q, i, k, n);
    JoinParentLinks(w, gw, c, gc, p, q, i, k, n);
    assert PageOk(c, gc, p);
    assert PageOk(c, gc, n);
    assert w.pages[q].branches[i].child == p;
    if w.pages[p].Internal? {
      forall m | 0 <= m < |w.pages[p].branches|
        ensures ChildOk(w, gw, p, w.pages[p].branches[m].child, ChildSpan(w.pages[p].branches, m, gw.span[p]))
      {
        JoinedChild(w, gw, c, gc, p, q, i, k, n, m);
      }
    }
  }

  lemma JoinParent(w: Store, gw: Shape, c: Store, gc: Shape,
                   p: PageId, q: PageId, i: nat, k: Key, n: PageId)
    requires JoinOf(w, gw, c, gc, p, q, i, k, n)
    ensures PageOk(w, gw, q)
  {
    JoinRoot(w, gw, c, gc, p, q, i, k, n);
    assert PageOk(c, gc, q);
    assert PageOk(c, gc, n);
    var bs, bs' := w.pages[q].branches, c.pages[q].branches;
    forall m | 0 <= m < |bs|
      ensures ChildOk(w, gw, q, bs[m].child, ChildSpan(bs, m, gw.span[q]))
    {
      JoinParentChild(w, gw, c, gc, p, q, i, k, n, m);
    }
    if q != w.root {
      var r := c.pages[q].parent;
      JoinHasChild(w, gw, c, gc, p, q, i, k, n, r, q);
    }
  }

  lemma JoinParentChild(w: Store, gw: Shape, c: Store, gc: Shape,
                        p: PageId, q: PageId, i: nat, k: Key, n: PageId, m: nat)
    requires JoinOf(w, gw, c, gc, p, q, i, k, n)
    requires m < |w.pages[q].branches| && q in gw.span && gw.span[q].height > 0
    ensures ChildOk(w, gw, q, w.pages[q].branches[m].child, ChildSpan(w.pages[q].branches, m, gw.span[q]))
  {
    var bs, bs' := w.pages[q].branches, c.pages[q].branches;
    InsertAtSpans(bs, i, k, n, m, gc.span[q]);
    if m == i {
      JoinTwoSpans(w, gw, c, gc, p, q, i, k, n);
    } else {
      JoinParentOtherChild(w, gw, c, gc, p, q, i, k, n, m, if m < i then m else m + 1);
    }
  }

  // The slots of the parent before and after a slot is put in behind slot `i`.
  lemma InsertAtSpans(bs: seq<Branch>, i: nat, k: Key, n: PageId, m: nat, sp: Span)
    requires i < |bs| && m < |bs| && sp.height > 0
    ensures var bs' := InsertAt(bs, i + 1, Branch(k, n));
      && bs'[i + 1] == Branch(k, n)
      && (m == i ==>
            && bs'[i] == bs[i]
            && ChildSpan(bs', i, sp) == ChildSpan(bs, i, sp).(hi := At(k))
            && ChildSpan(bs', i + 1, sp) == ChildSpan(bs, i, sp).(lo := At(k)))
      && (m != i ==>
            var m' := if m < i then m else m + 1;
            bs'[m'] == bs[m] && ChildSpan(bs', m', sp) == ChildSpan(bs, m, sp))
  {
    var bs' := InsertAt(bs, i + 1, Branch(k, n));
    assert forall j :: 0 <= j < |bs'| ==> bs'[j] == if j <= i then bs[j] else if j == i + 1 then Branch(k, n) else bs[j - 1];
  }

  // The two halves answer together for what the parent gives the joined page.
  lemma JoinTwoSpans(w: Store, gw: Shape, c: Store, gc: Shape,
                     p: PageId, q: PageId, i: nat, k: Key, n: PageId)
    requires JoinOf(w, gw, c, gc, p, q, i, k, n) && q in gc.span && gc.span[q].height > 0
    requires ChildSpan(c.pages[q].branches, i, gc.span[q]) == ChildSpan(w.pages[q].branches, i, gc.span[q]).(hi := At(k))
    requires ChildSpan(c.pages[q].branches, i + 1, gc.span[q]) == ChildSpan(w.pages[q].branches, i, gc.span[q]).(lo := At(k))
    ensures ChildOk(w, gw, q, p, ChildSpan(w.pages[q].branches, i, gc.span[q]))
  {
    assert PageOk(c, gc, q);
    var bs' := c.pages[q].branches;
    assert bs'[i].child == p && bs'[i + 1].child == n;
    assert ChildOk(c, gc, q, p, ChildSpan(bs', i, gc.span[q]));
    assert ChildOk(c, gc, q, n, ChildSpan(bs', i + 1, gc.span[q]));
  }

  lemma JoinParentOtherChild(w: Store, gw: Shape, c: Store, gc: Shape,
                             p: PageId, q: PageId, i: nat, k: Key, n: PageId, m: nat, m': nat)
    requires JoinOf(w, gw, c, gc, p, q, i, k, n)
    requires m' < |c.pages[q].branches| && m' != i && m' != i + 1 && q in gc.span && gc.span[q].height > 0
    ensures var y := c.pages[q].branches[m'].child;
      ChildOk(w, gw, q, y, ChildSpan(c.pages[q].branches, m', gc.span[q]))
  {
    assert PageOk(c, gc, q);
    var bs' := c.pages[q].branches;
    var y := bs'[m'].child;
    JoinParentLinks(w, gw, c, gc, p, q, i, k, n);
    assert ChildOk(c, gc, q, y, ChildSpan(bs', m', gc.span[q]));
    if y == p { DistinctChildren(c, gc, q, m', i); }
    if y == n { DistinctChildren(c, gc, q, m', i + 1); }
    assert y != q by { assert PageOk(c, gc, y); }
    assert HalvedOther(w, c, p, n, y);
    JoinMoved(w, gw, c, gc, p, q, i, k, n, y);
  }

  lemma JoinChain(w: Store, gw: Shape, c: Store, gc: Shape,
                  p: PageId, q: PageId, i: nat, k: Key, n: PageId)
    requires JoinOf(w, gw, c, gc, p, q, i, k, n)
    ensures ChainOk(w, gw)
  {
    forall m | 0 <= m < |gw.chain|
      ensures LinkOk(w, gw, m)
    {
      if w.pages[p].Leaf? {
        var a :| 0 <= a < |gw.chain| && gw.chain[a] == p && gc.chain == InsertAt(gw.chain, a + 1, n);
        JoinLink(w, gw, c, gc, p, q, i, k, n, a, m);
      } else {
        JoinLinkSame(w, gw, c, gc, p, q, i, k, n, m);
      }
    }
    forall x | x in w.pages && w.pages[x].Leaf?
      ensures x in gw.chain
    {
      if x != p { assert HalvedOther(w, c, p, n, x); }
      assert x in gc.chain;
    }
  }

  lemma JoinLinkSame(w: Store, gw: Shape, c: Store, gc: Shape,
                     p: PageId, q: PageId, i: nat, k: Key, n: PageId, m: nat)
    requires JoinOf(w, gw, c, gc, p, q, i, k, n)
    requires w.pages[p].Internal? && m < |gw.chain|
    ensures LinkOk(w, gw, m)
  {
    assert LinkOk(c, gc, m);
    assert HalvedOther(w, c, p, n, gc.chain[m]);
    if m + 1 < |gc.chain| {
      assert LinkOk(c, gc, m + 1);
      assert HalvedOther(w, c, p, n, gc.chain[m + 1]);
    }
  }

  lemma JoinLink(w: Store, gw: Shape, c: Store, gc: Shape,
                 p: PageId, q: PageId, i: nat, k: Key, n: PageId, a: nat, m: nat)
    requires JoinOf(w, gw, c, gc, p, q, i, k, n)
    requires w.pages[p].Leaf?
    requires a < |gw.chain| && gw.chain[a] == p && gc.chain == InsertAt(gw.chain, a + 1, n)
    requires m < |gw.chain|
    ensures LinkOk(w, gw, m)
  {
    if m < a {
      JoinLinkAt(w, gw, c, gc, p, q, i, k, n, a, m, m, m + 1);
    } else if m == a {
      assert gc.chain[a + 1] == n;
      assert LinkOk(c, gc, a);
      assert LinkOk(c, gc, a + 1);
      if a + 1 < |gw.chain| {
        assert gc.chain[a + 2] == gw.chain[a + 1];
        JoinChainOther(w, gw, c, gc, p, q, i, k, n, a, a + 2);
      }
    } else {
      JoinLinkAt(w, gw, c, gc, p, q, i, k, n, a, m, m + 1, m + 2);
    }
  }

  lemma JoinLinkAt(w: Store, gw: Shape, c: Store, gc: Shape,
                   p: PageId, q: PageId, i: nat, k: Key, n: PageId, a: nat, m: nat, m': nat, e: nat)
    requires JoinOf(w, gw, c, gc, p, q, i, k, n)
    requires w.pages[p].Leaf?
    requires a < |gw.chain| && gw.chain[a] == p && gc.chain == InsertAt(gw.chain, a + 1, n)
    requires m < |gw.chain| && m != a
    requires (m < a && m' == m) || (m > a && m' == m + 1)
    requires e == m' + 1
    ensures LinkOk(w, gw, m)
  {
    JoinChainPlaces(gw.chain, gc.chain, a, n, m, m', e);
    assert LinkOk(c, gc, m');
    JoinChainOther(w, gw, c, gc, p, q, i, k, n, a, m');
    if m + 1 < |gw.chain| {
      JoinChainOther(w, gw, c, gc, p, q, i, k, n, a, e);
    }
  }

  lemma JoinChainPlaces(s: seq<PageId>, s': seq<PageId>, a: nat, n: PageId, m: nat, m': nat, e: nat)
    requires a < |s| && s' == InsertAt(s, a + 1, n) && m < |s| && m != a
    requires ((m < a && m' == m) || (m > a && m' == m + 1)) && e == m' + 1
    ensures |s'| == |s| + 1 && s'[m'] == s[m] && e != a + 1
    ensures m + 1 < |s| ==> s'[e] == s[m + 1]
  {
  }

  lemma JoinChainOther(w: Store, gw: Shape, c: Store, gc: Shape,
                       p: PageId, q: PageId, i: nat, k: Key, n: PageId, a: nat, e: nat)
    requires JoinOf(w, gw, c, gc, p, q, i, k, n)
    requires w.pages[p].Leaf?
    requires a < |gw.chain| && gw.chain[a] == p && gc.chain == InsertAt(gw.chain, a + 1, n)
    requires e < |gc.chain| && e != a + 1
    ensures var x := gc.chain[e];
      && x in w.pages && x in c.pages && w.pages[x].Leaf? && x in gw.span && x in gc.span
      && gw.span[x].lo == gc.span[x].lo
      && (e != a ==> w.pages[x] == c.pages[x] && gw.span[x] == gc.span[x])
  {
    assert LinkOk(c, gc, e);
    if e != a {
      ChainIncreasing(c, gc, if e < a then e else a, if e < a then a else e);
      ChainIncreasing(c, gc, if e < a + 1 then e else a + 1, if e < a + 1 then a + 1 else e);
      assert HalvedOther(w, c, p, n, gc.chain[e]);
    }
  }

  /** Merging two neighbours of a B+ tree leaves a B+ tree. */
  lemma JoinKeepsTree(w: Store, gw: Shape, c: Store, gc: Shape,
                      p: PageId, q: PageId, i: nat, k: Key, n: PageId)
    requires JoinOf(w, gw, c, gc, p, q, i, k, n)
    ensures WellFormed(w, gw)
  {
    JoinRoot(w, gw, c, gc, p, q, i, k, n);
    forall x | x in w.pages
      ensures PageOk(w, gw, x)
    {
      if x == p {
        JoinedPage(w, gw, c, gc, p, q, i, k, n);
      } else if x == q {
        JoinParent(w, gw, c, gc, p, q, i, k, n);
      } else {
        JoinOther(w, gw, c, gc, p, q, i, k, n, x);
      }
    }
    JoinChain(w, gw, c, gc, p, q, i, k, n);
  }
}
