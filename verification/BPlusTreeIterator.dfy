/**
 Walking the leaf chain: the chain lists the leaves a top-down traversal meets, all at
 one depth, and an iterator over it yields the entries of the tree in key order.
 */
module BPlusTreeIterator {
  import opened BPlusTreeShape
  import opened BPlusTreeContents
  import opened BPlusTreeInsertion
  import opened BPlusTreeIndex
  import opened Wrappers

  // ----- Depth -----

  // The number of parent ids to follow from a page to the root.
  ghost function Depth(s: Store, g: Shape, p: PageId): nat
    requires WellFormed(s, g) && p in s.pages
    decreases if s.root in g.span && p in g.span then g.span[s.root].height - g.span[p].height else 0
  {
    assert PageOk(s, g, p);
    if p == s.root then 0 else
      var q := s.pages[p].parent;
      assert PageOk(s, g, q);
      1 + Depth(s, g, q)
  }

  lemma {:induction false} DepthIs(s: Store, g: Shape, p: PageId)
    requires WellFormed(s, g) && p in s.pages
    ensures p in g.span && s.root in g.span
    ensures Depth(s, g, p) + g.span[p].height == g.span[s.root].height
    decreases if s.root in g.span && p in g.span then g.span[s.root].height - g.span[p].height else 0
  {
    assert PageOk(s, g, p);
    assert PageOk(s, g, s.root);
    if p != s.root {
      var q := s.pages[p].parent;
      assert PageOk(s, g, q);
      DepthIs(s, g, q);
    }
  }

  /** All leaves are equally deep. */
  lemma LeavesEquallyDeep(s: Store, g: Shape, p: PageId, q: PageId)
    requires WellFormed(s, g) && p in s.pages && q in s.pages && s.pages[p].Leaf? && s.pages[q].Leaf?
    ensures Depth(s, g, p) == Depth(s, g, q)
  {
    DepthIs(s, g, p);
    DepthIs(s, g, q);
    assert PageOk(s, g, p) && PageOk(s, g, q);
  }

  // ----- The leaves below a page, by descending -----

  ghost function LeavesUnder(s: Store, g: Shape, p: PageId): seq<PageId>
    requires WellFormed(s, g) && p in s.pages
    decreases if p in g.span then g.span[p].height else 0, 1, 0
  {
    assert PageOk(s, g, p);
    match s.pages[p]
    case Leaf(_, _, _) => [p]
    case Internal(_, bs) => LeavesOf(s, g, p, |bs|)
  }

  // The leaves below the first `i` children of page `p`.
  ghost function LeavesOf(s: Store, g: Shape, p: PageId, i: nat): seq<PageId>
    requires WellFormed(s, g) && p in s.pages && s.pages[p].Internal? && i <= |s.pages[p].branches|
    decreases if p in g.span then g.span[p].height else 0, 0, i
  {
    assert PageOk(s, g, p);
    if i == 0 then [] else
      var c := s.pages[p].branches[i - 1].child;
      LeavesOf(s, g, p, i - 1) + LeavesUnder(s, g, c)
  }

  // `run` is the stretch chain[a..b], and it answers for the interval [lo, hi).
  ghost predicate Stretch(g: Shape, run: seq<PageId>, a: nat, b: nat, lo: Bound, hi: Bound) {
    && a < b <= |g.chain|
    && run == g.chain[a..b]
    && g.chain[a] in g.span && g.span[g.chain[a]].lo == lo
    && g.chain[b - 1] in g.span && g.span[g.chain[b - 1]].hi == hi
  }

  lemma {:induction false} Stretches(s: Store, g: Shape, p: PageId) returns (a: nat, b: nat)
    requires WellFormed(s, g) && p in s.pages
    ensures p in g.span && Stretch(g, LeavesUnder(s, g, p), a, b, g.span[p].lo, g.span[p].hi)
    decreases if p in g.span then g.span[p].height else 0, 1, 0
  {
    assert PageOk(s, g, p);
    if s.pages[p].Leaf? {
      a :| 0 <= a < |g.chain| && g.chain[a] == p;
      b := a + 1;
    } else {
      a, b := StretchesOf(s, g, p, |s.pages[p].branches|);
    }
  }

  lemma {:induction false} StretchesOf(s: Store, g: Shape, p: PageId, i: nat) returns (a: nat, b: nat)
    requires WellFormed(s, g) && p in s.pages && s.pages[p].Internal? && 0 < i <= |s.pages[p].branches|
    ensures PageOk(s, g, p)
    ensures Stretch(g, LeavesOf(s, g, p, i), a, b, g.span[p].lo, ChildSpan(s.pages[p].branches, i - 1, g.span[p]).hi)
    decreases if p in g.span then g.span[p].height else 0, 0, i
  {
    assert PageOk(s, g, p);
    var bs := s.pages[p].branches;
    var c := bs[i - 1].child;
    assert ChildOk(s, g, p, c, ChildSpan(bs, i - 1, g.span[p]));
    var a1, b1 := Stretches(s, g, c);
    if i == 1 {
      assert LeavesOf(s, g, p, 0) == [];
      a, b := a1, b1;
    } else {
      var a0, b0 := StretchesOf(s, g, p, i - 1);
      SameStart(s, g, b0, a1);
      a, b := a0, b1;
      Glue(g, LeavesOf(s, g, p, i - 1), LeavesUnder(s, g, c), a0, b0, b1,
           g.span[p].lo, ChildSpan(bs, i - 2, g.span[p]).hi, ChildSpan(bs, i - 1, g.span[p]).hi);
    }
  }

  lemma Glue(g: Shape, front: seq<PageId>, back: seq<PageId>, a: nat, b: nat, c: nat, lo: Bound, mid: Bound, hi: Bound)
    requires Stretch(g, front, a, b, lo, mid) && Stretch(g, back, b, c, mid, hi)
    ensures Stretch(g, front + back, a, c, lo, hi)
  {
    assert g.chain[a..b] + g.chain[b..c] == g.chain[a..c];
  }

  // Two leaves with the same lower bound are the same place in the chain.
  lemma SameStart(s: Store, g: Shape, b: nat, a: nat)
    requires WellFormed(s, g) && 0 < b <= |g.chain| && a < |g.chain|
    requires g.chain[b - 1] in g.span && g.chain[a] in g.span
    requires g.span[g.chain[b - 1]].hi == g.span[g.chain[a]].lo && g.span[g.chain[a]].lo.At?
    ensures a == b
  {
    assert LinkOk(s, g, b - 1);
    if a < b {
      ChainIncreasing(s, g, a, b);
    } else if b < a {
      ChainIncreasing(s, g, b, a);
    }
  }

  /** The leaf chain is the list of leaves a top-down, left-to-right traversal meets. */
  lemma ChainIsTraversal(s: Store, g: Shape)
    requires WellFormed(s, g)
    ensures LeavesUnder(s, g, s.root) == g.chain
  {
    var a, b := Stretches(s, g, s.root);
    assert PageOk(s, g, s.root);
    assert LinkOk(s, g, 0) && LinkOk(s, g, b - 1);
    if a > 0 {
      ChainIncreasing(s, g, 0, a);
    }
    forall i | 0 <= i < |g.chain|
      ensures g.chain[i] in g.span && g.span[g.chain[i]].lo != PlusInf
    {
      assert LinkOk(s, g, i);
      assert PageOk(s, g, g.chain[i]);
    }
    assert g.chain[0..|g.chain|] == g.chain;
  }

  // ----- The iterator -----

  class IndexIterator {
    const tree: BPlusTree
    var page: PageId
    var index: nat
    var size: nat
    ghost var place: nat

    ghost predicate Valid()
      reads this, tree
    {
      && tree.Valid() && tree.root != INVALID_PAGE_ID
      && place < |tree.shape.chain| && tree.shape.chain[place] == page
      && page in tree.pages && tree.pages[page].Leaf?
      && size == |tree.pages[page].entries|
      && (index < size || (index == size && place + 1 == |tree.shape.chain|))
    }

    // The entries still to come.
    ghost function Remaining(): seq<Entry>
      requires Valid()
      reads this, tree
    {
      tree.pages[page].entries[index..] + Entries(tree.pages, tree.shape.chain[place + 1..])
    }

    constructor (tree: BPlusTree, page: PageId, index: nat, ghost place: nat)
      requires tree.Valid() && tree.root != INVALID_PAGE_ID
      requires place < |tree.shape.chain| && tree.shape.chain[place] == page
      requires page in tree.pages && tree.pages[page].Leaf? && index < |tree.pages[page].entries|
      ensures Valid() && this.tree == tree && this.page == page && this.index == index && this.place == place
    {
      this.tree, this.page, this.index, this.place := tree, page, index, place;
      size := |tree.pages[page].entries|;
    }

    method IsEnd() returns (end: bool)
      requires Valid()
      ensures end <==> Remaining() == []
    {
      end := index >= size && tree.pages[page].next == INVALID_PAGE_ID;
      assert LinkOk(tree.Tree(), tree.shape, place);
      if place + 1 == |tree.shape.chain| {
        assert tree.shape.chain[place + 1..] == [];
      }
    }

    method Current() returns (e: Entry)
      requires Valid() && Remaining() != []
      ensures e == Remaining()[0]
    {
      assert place + 1 == |tree.shape.chain| ==> Entries(tree.pages, tree.shape.chain[place + 1..]) == [];
      e := tree.pages[page].entries[index];
    }

    method Next()
      requires Valid() && Remaining() != []
      modifies this
      ensures Valid()
      ensures Remaining() == old(Remaining())[1..]
    {
      assert place + 1 == |tree.shape.chain| ==> Entries(tree.pages, tree.shape.chain[place + 1..]) == [];
      assert LinkOk(tree.Tree(), tree.shape, place);
      index := index + 1;
      if index >= size {
        var next := tree.pages[page].next;
        if next == INVALID_PAGE_ID {
          NextIsLast(tree.Tree(), tree.shape, place);
          return;
        }
        EnterNext(next);
      }
    }

    // The first entry of the next leaf comes after the last of this one.
    method EnterNext(next: PageId)
      requires tree.Valid() && tree.root != INVALID_PAGE_ID
      requires place < |tree.shape.chain| && tree.shape.chain[place] == page
      requires page in tree.pages && tree.pages[page].Leaf? && tree.pages[page].next == next != INVALID_PAGE_ID
      modifies this
      ensures Valid() && Remaining() == old(Entries(tree.pages, tree.shape.chain[place + 1..]))
    {
      NextLeaf(tree.leafMax, tree.internalMax, tree.Tree(), tree.shape, place);
      page, index, place := next, 0, place + 1;
      size := |tree.pages[page].entries|;
    }

    // Read the current entry and move on.
    method Step() returns (e: Entry, end: bool)
      requires Valid() && Remaining() != []
      modifies this
      ensures Valid() && e == old(Remaining())[0] && Remaining() == old(Remaining())[1..]
      ensures end <==> Remaining() == []
    {
      e := Current();
      Next();
      end := IsEnd();
    }

    // Run the iterator to the end.
    method Drain() returns (es: seq<Entry>)
      requires Valid()
      modifies this
      ensures Valid()
      ensures es == old(Remaining())
    {
      es := [];
      var end := IsEnd();
      ghost var all, rest := Remaining(), Remaining();
      while !end
        invariant Valid() && rest == Remaining()
        invariant es + rest == all
        invariant end <==> rest == []
        decreases |rest|
      {
        TakeFirst(es, rest);
        var e;
        e, end := Step();
        es, rest := es + [e], rest[1..];
      }
    }
  }

  lemma TakeFirst(es: seq<Entry>, rest: seq<Entry>)
    requires rest != []
    ensures es + rest == (es + [rest[0]]) + rest[1..]
  {
  }

  lemma NextIsLast(s: Store, g: Shape, a: nat)
    requires WellFormed(s, g) && a < |g.chain| && g.chain[a] in s.pages && s.pages[g.chain[a]].Leaf?
    ensures s.pages[g.chain[a]].next == INVALID_PAGE_ID <==> a + 1 == |g.chain|
  {
    assert LinkOk(s, g, a);
    if a + 1 < |g.chain| {
      assert LinkOk(s, g, a + 1);
      assert PageOk(s, g, g.chain[a + 1]);
    }
  }

  // The next leaf of the chain is there, and is not empty.
  lemma NextLeaf(leafMax: nat, internalMax: nat, s: Store, g: Shape, a: nat)
    requires leafMax >= 2 && WellFormed(s, g) && SizesBut(leafMax, internalMax, s, INVALID_PAGE_ID)
    requires a < |g.chain| && g.chain[a] in s.pages && s.pages[g.chain[a]].Leaf?
    requires s.pages[g.chain[a]].next != INVALID_PAGE_ID
    ensures a + 1 < |g.chain| && g.chain[a + 1] == s.pages[g.chain[a]].next
    ensures g.chain[a + 1] in s.pages && s.pages[g.chain[a + 1]].Leaf? && |s.pages[g.chain[a + 1]].entries| > 0
    ensures Entries(s.pages, g.chain[a + 1..]) == s.pages[g.chain[a + 1]].entries + Entries(s.pages, g.chain[a + 2..])
  {
    assert LinkOk(s, g, a);
    assert LinkOk(s, g, a + 1);
    assert PageOk(s, g, g.chain[a + 1]);
    assert SizeOk(leafMax, internalMax, s, g.chain[a + 1]);
    assert g.chain[a + 1..][1..] == g.chain[a + 2..];
  }

  // The leaf a search ends in is not empty.
  lemma LeafNotEmpty(leafMax: nat, internalMax: nat, s: Store, g: Shape, a: nat)
    requires leafMax >= 2 && WellFormed(s, g) && SizesBut(leafMax, internalMax, s, INVALID_PAGE_ID)
    requires a < |g.chain|
    ensures g.chain[a] in s.pages && s.pages[g.chain[a]].Leaf? && |s.pages[g.chain[a]].entries| > 0
  {
    assert LinkOk(s, g, a);
    assert PageOk(s, g, g.chain[a]);
    assert SizeOk(leafMax, internalMax, s, g.chain[a]);
  }

  // An iterator at the first entry.
  method Begin(tree: BPlusTree) returns (it: IndexIterator)
    requires tree.Valid() && tree.root != INVALID_PAGE_ID
    ensures fresh(it) && it.Valid() && it.tree == tree
    ensures it.Remaining() == tree.Listing()
  {
    var p, a := tree.FindLeafPage(0, true);
    LeafNotEmpty(tree.leafMax, tree.internalMax, tree.Tree(), tree.shape, a);
    FirstLeaf(tree.Tree(), tree.shape);
    it := new IndexIterator(tree, p, 0, a);
  }

  lemma FirstLeaf(s: Store, g: Shape)
    requires WellFormed(s, g)
    ensures g.chain[0] in s.pages && s.pages[g.chain[0]].Leaf?
    ensures Entries(s.pages, g.chain) == s.pages[g.chain[0]].entries[0..] + Entries(s.pages, g.chain[0 + 1..])
  {
    assert LinkOk(s, g, 0);
  }

  /** Iterating from the first entry to the end yields the map's entries in strictly
      increasing key order. */
  method Scan(tree: BPlusTree) returns (es: seq<Entry>)
    requires tree.Valid() && tree.root != INVALID_PAGE_ID
    ensures Sorted(es) && ToMap(es) == tree.Contents()
  {
    var it := Begin(tree);
    EntriesSorted(tree.Tree(), tree.shape);
    es := it.Drain();
  }

  // ----- Scans from a key on -----

  // The entries from the first one that is not below the key.
  ghost function From(es: seq<Entry>, key: Key): seq<Entry> {
    if es == [] || es[0].key >= key then es else From(es[1..], key)
  }

  lemma {:induction false} FromRest(xs: seq<Entry>, ys: seq<Entry>, key: Key)
    requires forall i :: 0 <= i < |xs| ==> xs[i].key < key
    requires ys != [] ==> ys[0].key >= key
    ensures From(xs + ys, key) == ys
  {
    if xs == [] {
      assert xs + ys == ys;
    } else {
      assert (xs + ys)[1..] == xs[1..] + ys;
      FromRest(xs[1..], ys, key);
    }
  }

  // Leaf `a` answers for the key, and all its keys are smaller.
  ghost predicate AllBelow(s: Store, g: Shape, a: nat, key: Key) {
    && a < |g.chain| && g.chain[a] in g.span
    && Within(key, g.span[g.chain[a]].lo, g.span[g.chain[a]].hi)
    && forall e :: e in LeafEntries(s.pages, g.chain[a]) ==> e.key < key
  }

  // Only one leaf answers for a key.
  lemma OneLeaf(s: Store, g: Shape, a: nat, b: nat, key: Key)
    requires WellFormed(s, g) && a < |g.chain| && b < |g.chain| && g.chain[a] in g.span && g.chain[b] in g.span
    requires Within(key, g.span[g.chain[a]].lo, g.span[g.chain[a]].hi)
    requires Within(key, g.span[g.chain[b]].lo, g.span[g.chain[b]].hi)
    ensures a == b
  {
    if a < b {
      ChainIncreasing(s, g, a, b);
    } else if b < a {
      ChainIncreasing(s, g, b, a);
    }
  }

  // The entries from a key on start in the leaf that answers for it, or right behind it.
  lemma FromLeaf(s: Store, g: Shape, a: nat, key: Key, i: nat)
    requires WellFormed(s, g) && a < |g.chain| && g.chain[a] in g.span
    requires Within(key, g.span[g.chain[a]].lo, g.span[g.chain[a]].hi)
    requires var es := LeafEntries(s.pages, g.chain[a]);
      i <= |es| && (i < |es| ==> es[i].key >= key) && forall k :: 0 <= k < i ==> es[k].key < key
    ensures From(Entries(s.pages, g.chain), key) == LeafEntries(s.pages, g.chain[a])[i..] + Entries(s.pages, g.chain[a + 1..])
  {
    OutsideLeaf(s, g, a, key);
    EntriesAround(s.pages, g.chain, a);
    FromMiddle(Before(s, g, a), LeafEntries(s.pages, g.chain[a]), After(s, g, a), key, i);
  }

  lemma FromMiddle(xs: seq<Entry>, es: seq<Entry>, ys: seq<Entry>, key: Key, i: nat)
    requires forall e :: e in xs ==> e.key < key
    requires forall e :: e in ys ==> key < e.key
    requires i <= |es| && (i < |es| ==> es[i].key >= key) && forall k :: 0 <= k < i ==> es[k].key < key
    ensures From(xs + es + ys, key) == es[i..] + ys
  {
    assert xs + es + ys == (xs + es[..i]) + (es[i..] + ys) by { assert es == es[..i] + es[i..]; }
    forall k | 0 <= k < |xs + es[..i]|
      ensures (xs + es[..i])[k].key < key
    {
      assert k < |xs| ==> xs[k] in xs;
    }
    if es[i..] + ys != [] {
      assert (es[i..] + ys)[0] == if i < |es| then es[i] else ys[0];
      assert i == |es| ==> ys[0] in ys;
    }
    FromRest(xs + es[..i], es[i..] + ys, key);
  }

  // A leaf with a key that is not smaller answers for the key alone.
  lemma NoneBelow(s: Store, g: Shape, a: nat, key: Key, e: Entry)
    requires WellFormed(s, g) && a < |g.chain| && g.chain[a] in g.span
    requires Within(key, g.span[g.chain[a]].lo, g.span[g.chain[a]].hi)
    requires e in LeafEntries(s.pages, g.chain[a]) && e.key >= key
    ensures forall b :: !AllBelow(s, g, b, key)
  {
    forall b
      ensures !AllBelow(s, g, b, key)
    {
      if AllBelow(s, g, b, key) { OneLeaf(s, g, a, b, key); }
    }
  }

  /** An iterator at the first entry that is not below the key.  The search throws exactly
      when all keys of the leaf that answers for the key are smaller. */
  method BeginAt(tree: BPlusTree, key: Key) returns (it: Option<IndexIterator>)
    requires tree.Valid() && tree.root != INVALID_PAGE_ID
    ensures it.None? <==> exists a :: AllBelow(tree.Tree(), tree.shape, a, key)
    ensures it.Some? ==> fresh(it.value) && it.value.Valid() && it.value.tree == tree
    ensures it.Some? ==> it.value.Remaining() == From(tree.Listing(), key)
    ensures key in tree.Contents() ==> it.Some?
  {
    var p, a := tree.FindLeafPage(key, false);
    LeafDecides(tree.Tree(), tree.shape, a, key);
    var i := KeyIndex(tree.pages[p].entries, key);
    if i == -1 {
      assert AllBelow(tree.Tree(), tree.shape, a, key);
      return None;
    }
    NoneBelow(tree.Tree(), tree.shape, a, key, tree.pages[p].entries[i]);
    var found := IteratorAt(tree, key, p, a, i);
    it := Some(found);
  }

  method IteratorAt(tree: BPlusTree, ghost key: Key, p: PageId, ghost a: nat, i: nat) returns (it: IndexIterator)
    requires tree.Valid() && tree.root != INVALID_PAGE_ID
    requires a < |tree.shape.chain| && tree.shape.chain[a] == p && p in tree.shape.span
    requires Within(key, tree.shape.span[p].lo, tree.shape.span[p].hi)
    requires p in tree.pages && tree.pages[p].Leaf? && i < |tree.pages[p].entries| && tree.pages[p].entries[i].key >= key
    requires forall k :: 0 <= k < i ==> tree.pages[p].entries[k].key < key
    ensures fresh(it) && it.Valid() && it.tree == tree && it.Remaining() == From(tree.Listing(), key)
  {
    FromLeaf(tree.Tree(), tree.shape, a, key, i);
    it := new IndexIterator(tree, p, i, a);
  }

  /** When the search throws, the entries from the key on are those of the later leaves:
      there are some exactly when the leaf is not the last. */
  lemma ThrowsBefore(leafMax: nat, internalMax: nat, s: Store, g: Shape, a: nat, key: Key)
    requires leafMax >= 2 && WellFormed(s, g) && SizesBut(leafMax, internalMax, s, INVALID_PAGE_ID)
    requires AllBelow(s, g, a, key)
    ensures From(Entries(s.pages, g.chain), key) == Entries(s.pages, g.chain[a + 1..])
    ensures From(Entries(s.pages, g.chain), key) != [] <==> a + 1 < |g.chain|
  {
    var es := LeafEntries(s.pages, g.chain[a]);
    assert forall k :: 0 <= k < |es| ==> es[k] in es;
    FromLeaf(s, g, a, key, |es|);
    LeafNotEmpty(leafMax, internalMax, s, g, a);
    NextIsLast(s, g, a);
    if a + 1 < |g.chain| {
      NextLeaf(leafMax, internalMax, s, g, a);
    }
  }

  // Keys 1 and 2 in one leaf, 5 and 6 in the next.
  function TwoLeaves(r: RID): Store {
    Store(map[0 := Leaf(2, 1, [Entry(1, r), Entry(2, r)]),
              1 := Leaf(2, INVALID_PAGE_ID, [Entry(5, r), Entry(6, r)]),
              2 := Internal(INVALID_PAGE_ID, [Branch(0, 0), Branch(5, 1)])], 2)
  }

  function TwoSpans(): Shape {
    Shape(map[0 := Span(0, MinusInf, At(5)), 1 := Span(0, At(5), PlusInf), 2 := Span(1, MinusInf, PlusInf)], [0, 1])
  }

  lemma TwoLeavesOk(r: RID)
    ensures WellFormed(TwoLeaves(r), TwoSpans())
    ensures SizesBut(2, 4, TwoLeaves(r), INVALID_PAGE_ID)
  {
    var s, g := TwoLeaves(r), TwoSpans();
    assert s.pages[2].branches[0].child == 0 && s.pages[2].branches[1].child == 1;
    assert PageOk(s, g, 0) && PageOk(s, g, 1) && PageOk(s, g, 2);
    assert g.chain[0] == 0 && g.chain[1] == 1;
    assert LinkOk(s, g, 0) && LinkOk(s, g, 1);
  }

  /** The search for 3 ends in the leaf of 1 and 2 and throws, though 5 and 6 follow. */
  lemma BeginMisses(r: RID)
    ensures WellFormed(TwoLeaves(r), TwoSpans()) && SizesBut(2, 4, TwoLeaves(r), INVALID_PAGE_ID)
    ensures AllBelow(TwoLeaves(r), TwoSpans(), 0, 3)
    ensures From(Entries(TwoLeaves(r).pages, TwoSpans().chain), 3) == [Entry(5, r), Entry(6, r)]
  {
    TwoLeavesOk(r);
    var s, g := TwoLeaves(r), TwoSpans();
    ThrowsBefore(2, 4, s, g, 0, 3);
    assert g.chain[1..] == [1] && [1][1..] == [];
    assert Entries(s.pages, [1]) == LeafEntries(s.pages, 1) + Entries(s.pages, []);
  }
}
