/**
 Changes of the root, and of the entries of one leaf.
 */
module BPlusTreeRoot {
  import opened BPlusTreeShape

  // `t` is `s` with a fresh root `up` above the root of `s`.
  ghost predicate Taller(s: Store, gs: Shape, t: Store, gt: Shape, up: PageId, k: Key) {
    && s.root in s.pages && s.root in gs.span
    && up !in s.pages && up != INVALID_PAGE_ID
    && t.root == up
    && s.pages[s.root].parent == INVALID_PAGE_ID
    && t.pages == s.pages[s.root := s.pages[s.root].(parent := up)][up := Internal(INVALID_PAGE_ID, [Branch(k, s.root)])]
    && up in gt.span && gt.span[up] == Span(gs.span[s.root].height + 1, MinusInf, PlusInf)
    && (forall x :: x in s.pages ==> (x in gs.span <==> x in gt.span))
    && (forall x :: x in s.pages && x in gs.span ==> gs.span[x] == gt.span[x])
    && gt.chain == gs.chain
  }

  lemma GrowPage(s: Store, gs: Shape, t: Store, gt: Shape, up: PageId, k: Key, x: PageId)
    requires Taller(s, gs, t, gt, up, k) && WellFormed(s, gs)
    requires x in s.pages
    ensures PageOk(t, gt, x)
  {
    assert PageOk(s, gs, x);
    assert PageOk(s, gs, s.root);
    if x == s.root {
      assert t.pages[up].branches[0].child == x;
    }
  }

  lemma GrowKeepsTree(s: Store, gs: Shape, t: Store, gt: Shape, up: PageId, k: Key)
    requires Taller(s, gs, t, gt, up, k) && WellFormed(s, gs)
    ensures WellFormed(t, gt)
  {
    assert PageOk(s, gs, s.root);
    forall x | x in t.pages
      ensures PageOk(t, gt, x)
    {
      if x != up {
        GrowPage(s, gs, t, gt, up, k, x);
      }
    }
    forall m | 0 <= m < |gt.chain|
      ensures LinkOk(t, gt, m)
    {
      assert LinkOk(s, gs, m);
      if m + 1 < |gs.chain| { assert LinkOk(s, gs, m + 1); }
    }
  }

  lemma {:induction false} TallerEntries(s: Store, gs: Shape, t: Store, gt: Shape, up: PageId, k: Key)
    requires Taller(s, gs, t, gt, up, k)
    requires WellFormed(s, gs)
    ensures Entries(t.pages, gt.chain) == Entries(s.pages, gs.chain)
  {
    forall m | 0 <= m < |gs.chain|
      ensures LeafEntries(s.pages, gs.chain[m]) == LeafEntries(t.pages, gs.chain[m])
    {
      assert LinkOk(s, gs, m);
    }
    EntriesFrame(s.pages, t.pages, gs.chain);
  }

  lemma CollapsePage(s: Store, gs: Shape, t: Store, gt: Shape, up: PageId, k: Key, x: PageId)
    requires Taller(s, gs, t, gt, up, k) && WellFormed(t, gt)
    requires x in s.pages
    ensures PageOk(s, gs, x)
  {
    assert PageOk(t, gt, x);
    assert PageOk(t, gt, up);
    assert t.pages[up].branches[0].child == s.root;
    if x != s.root {
      var y := t.pages[x].parent;
      assert PageOk(t, gt, y);
    }
  }

  lemma CollapseKeepsTree(s: Store, gs: Shape, t: Store, gt: Shape, up: PageId, k: Key)
    requires Taller(s, gs, t, gt, up, k) && WellFormed(t, gt)
    ensures WellFormed(s, gs)
  {
    forall x | x in s.pages
      ensures PageOk(s, gs, x)
    {
      CollapsePage(s, gs, t, gt, up, k, x);
    }
    forall m | 0 <= m < |gs.chain|
      ensures LinkOk(s, gs, m)
    {
      assert LinkOk(t, gt, m);
      if m + 1 < |gs.chain| { assert LinkOk(t, gt, m + 1); }
    }
  }

  // ----- The entries of one leaf -----

  function SetEntries(s: Store, p: PageId, es: seq<Entry>): Store
    requires p in s.pages && s.pages[p].Leaf?
  {
    s.(pages := s.pages[p := s.pages[p].(entries := es)])
  }

  lemma SetEntriesKeepsTree(s: Store, g: Shape, p: PageId, es: seq<Entry>)
    requires WellFormed(s, g)
    requires p in s.pages && s.pages[p].Leaf? && p in g.span
    requires Sorted(es) && forall i :: 0 <= i < |es| ==> Within(es[i].key, g.span[p].lo, g.span[p].hi)
    ensures WellFormed(SetEntries(s, p, es), g)
  {
    var s' := SetEntries(s, p, es);
    forall x | x in s'.pages
      ensures PageOk(s', g, x)
    {
      assert PageOk(s, g, x);
    }
    forall m | 0 <= m < |g.chain|
      ensures LinkOk(s', g, m)
    {
      assert LinkOk(s, g, m);
    }
  }

  lemma {:induction false} SetEntriesEntries(s: Store, g: Shape, p: PageId, es: seq<Entry>, a: nat)
    requires WellFormed(s, g)
    requires p in s.pages && s.pages[p].Leaf?
    requires a < |g.chain| && g.chain[a] == p
    ensures Entries(SetEntries(s, p, es).pages, g.chain)
         == Entries(s.pages, g.chain[..a]) + es + Entries(s.pages, g.chain[a + 1..])
  {
    var pages' := SetEntries(s, p, es).pages;
    forall m | 0 <= m < |g.chain| && m != a
      ensures LeafEntries(pages', g.chain[m]) == LeafEntries(s.pages, g.chain[m])
    {
      ChainIncreasing(s, g, if m < a then m else a, if m < a then a else m);
    }
    EntriesAround(pages', g.chain, a);
    EntriesFrame(s.pages, pages', g.chain[..a]);
    EntriesFrame(s.pages, pages', g.chain[a + 1..]);
  }
}
