/**
 The B+ tree index: point lookup, insertion with recursive splits, and removal with
 recursive redistribution and merging, over a store of pages.
 */
module BPlusTreeIndex {
  import opened BPlusTreeShape
  import opened BPlusTreeSplit
  import opened BPlusTreeRoot
  import opened BPlusTreeMoves
  import opened BPlusTreeContents
  import opened BPlusTreeInsertion
  import opened BPlusTreeDeletion

  // ----- Searches inside one page -----

  // The child of an internal page to descend to for `key`.
  method Lookup(bs: seq<Branch>, key: Key) returns (c: PageId, ghost i: nat)
    requires |bs| > 0
    ensures i < |bs| && c == bs[i].child
    ensures i > 0 ==> bs[i].key <= key
    ensures i + 1 < |bs| ==> key < bs[i + 1].key
  {
    var j := 1;
    while j < |bs|
      invariant 1 <= j <= |bs|
      invariant j > 1 ==> bs[j - 1].key <= key
    {
      if key < bs[j].key {
        return bs[j - 1].child, j - 1;
      }
      j := j + 1;
    }
    return bs[|bs| - 1].child, |bs| - 1;
  }

  method ValueIndex(bs: seq<Branch>, p: PageId) returns (i: int)
    ensures i == IndexOf(bs, p)
  {
    i := 0;
    while i < |bs|
      invariant 0 <= i <= |bs|
      invariant forall k :: 0 <= k < i ==> bs[k].child != p
    {
      if bs[i].child == p {
        return;
      }
      i := i + 1;
    }
    i := -1;
  }

  // The first slot of a leaf whose key is at least `key`, or -1.
  method KeyIndex(es: seq<Entry>, key: Key) returns (i: int)
    ensures -1 <= i < |es|
    ensures i >= 0 ==> es[i].key >= key
    ensures forall k :: 0 <= k < (if i < 0 then |es| else i) ==> es[k].key < key
  {
    i := 0;
    while i < |es|
      invariant 0 <= i <= |es|
      invariant forall k :: 0 <= k < i ==> es[k].key < key
    {
      if es[i].key >= key {
        return;
      }
      i := i + 1;
    }
    i := -1;
  }

  method LeafLookup(es: seq<Entry>, key: Key) returns (found: bool, rid: RID)
    ensures found <==> exists i :: 0 <= i < |es| && es[i].key == key
    ensures found ==> Entry(key, rid) in es
  {
    rid := RID(-1, -1);
    var i := 0;
    while i < |es|
      invariant 0 <= i <= |es|
      invariant forall k :: 0 <= k < i ==> es[k].key != key
    {
      if es[i].key == key {
        return true, es[i].rid;
      }
      i := i + 1;
    }
    return false, rid;
  }

  // The entries of a leaf after adding an entry to it; a present key changes nothing.
  method LeafInsert(es: seq<Entry>, key: Key, rid: RID) returns (es': seq<Entry>, ghost i: nat)
    requires Sorted(es)
    ensures i <= |es|
    ensures Sorted(es')
    ensures if exists k :: 0 <= k < |es| && es[k].key == key then es' == es
            else es' == es[..i] + [Entry(key, rid)] + es[i..]
  {
    var at := KeyIndex(es, key);
    if at == -1 {
      return es + [Entry(key, rid)], |es|;
    }
    if es[at].key == key {
      return es, at;
    }
    assert forall k :: 0 <= k < |es| ==> es[k].key != key;
    return es[..at] + [Entry(key, rid)] + es[at..], at;
  }

  // Put an entry into the half of a split leaf it belongs to.
  method InsertIntoHalf(left: seq<Entry>, right: seq<Entry>, key: Key, rid: RID)
    returns (left': seq<Entry>, right': seq<Entry>, ghost i: nat)
    requires Sorted(left) && Sorted(right) && |left| > 0 && |right| > 0 && left[|left| - 1].key < right[0].key
    requires forall m :: 0 <= m < |left| ==> left[m].key != key
    requires forall m :: 0 <= m < |right| ==> right[m].key != key
    ensures i <= |left + right|
    ensures left' + right' == InsertAt(left + right, i, Entry(key, rid)) && Sorted(left' + right')
    ensures |left'| == if key < right[0].key then |left| + 1 else |left|
    ensures |right'| > 0 && right'[0].key == right[0].key
  {
    left', right' := left, right;
    if key < right[0].key {
      left', i := LeafInsert(left, key, rid);
      InsertLeft(left, right, i, Entry(key, rid));
    } else {
      ghost var i';
      right', i' := LeafInsert(right, key, rid);
      i := |left| + i';
      InsertRight(left, right, i', Entry(key, rid));
    }
  }

  // The entries of a leaf after removing a key from it; an absent key changes nothing.
  method LeafRemove(es: seq<Entry>, key: Key) returns (es': seq<Entry>, ghost i: nat)
    requires Sorted(es)
    ensures Sorted(es')
    ensures if exists k :: 0 <= k < |es| && es[k].key == key
            then i < |es| && es[i].key == key && es' == es[..i] + es[i + 1..]
            else es' == es
  {
    var j := 0;
    while j < |es|
      invariant 0 <= j <= |es|
      invariant forall k :: 0 <= k < j ==> es[k].key != key
    {
      if es[j].key == key {
        es', i := es[..j] + es[j + 1..], j;
        return;
      }
      j := j + 1;
    }
    return es, 0;
  }

  class BPlusTree {
    const leafMax: nat
    const internalMax: nat
    var pages: map<PageId, Page>
    var root: PageId
    var nextPageId: PageId
    ghost var shape: Shape

    ghost function Tree(): Store
      reads this
    {
      Store(pages, root)
    }

    // The capacities the page layouts give, and ids handed out in increasing order.
    ghost predicate Configured()
      reads this
    {
      && leafMax >= 2 && internalMax >= 4
      && nextPageId >= 0
      && forall p :: p in pages ==> 0 <= p < nextPageId
    }

    ghost predicate Valid()
      reads this
    {
      && Configured()
      && (root == INVALID_PAGE_ID ==> pages == map[])
      && (root != INVALID_PAGE_ID ==> WellFormed(Tree(), shape) && SizesBut(leafMax, internalMax, Tree(), INVALID_PAGE_ID))
    }

    ghost function Listing(): seq<Entry>
      reads this
    {
      if root == INVALID_PAGE_ID then [] else Entries(pages, shape.chain)
    }

    // The finite map the tree stands for.
    ghost function Contents(): map<Key, RID>
      requires Valid()
      reads this
    {
      if root != INVALID_PAGE_ID then EntriesSorted(Tree(), shape); ToMap(Listing()) else map[]
    }

    constructor (leafMax: nat, internalMax: nat)
      requires leafMax >= 2 && internalMax >= 4
      ensures Valid() && Contents() == map[] && root == INVALID_PAGE_ID
      ensures this.leafMax == leafMax && this.internalMax == internalMax
    {
      this.leafMax, this.internalMax := leafMax, internalMax;
      pages, root, nextPageId := map[], INVALID_PAGE_ID, 0;
      shape := Shape(map[], []);
    }

    // ----- Search -----

    method FindLeafPage(key: Key, leftMost: bool) returns (p: PageId, ghost a: nat)
      requires Valid() && root != INVALID_PAGE_ID
      ensures p in pages && pages[p].Leaf? && p in shape.span
      ensures a < |shape.chain| && shape.chain[a] == p
      ensures if leftMost then a == 0 else Within(key, shape.span[p].lo, shape.span[p].hi)
    {
      p := root;
      assert PageOk(Tree(), shape, root);
      while pages[p].Internal?
        invariant p in pages && PageOk(Tree(), shape, p)
        invariant if leftMost then shape.span[p].lo == MinusInf else Within(key, shape.span[p].lo, shape.span[p].hi)
        decreases shape.span[p].height
      {
        var bs := pages[p].branches;
        if leftMost {
          assert ChildOk(Tree(), shape, p, bs[0].child, ChildSpan(bs, 0, shape.span[p]));
          p := bs[0].child;
        } else {
          var c, i := Lookup(bs, key);
          assert ChildOk(Tree(), shape, p, bs[i].child, ChildSpan(bs, i, shape.span[p]));
          p := c;
        }
        assert PageOk(Tree(), shape, p);
      }
      a :| 0 <= a < |shape.chain| && shape.chain[a] == p;
      if leftMost && a > 0 {
        ChainIncreasing(Tree(), shape, 0, a);
        assert false;
      }
    }

    method GetValue(key: Key) returns (found: bool, rid: RID)
      requires Valid() && root != INVALID_PAGE_ID
      ensures found <==> key in Contents()
      ensures found ==> rid == Contents()[key]
    {
      var p, a := FindLeafPage(key, false);
      found, rid := LeafLookup(pages[p].entries, key);
      LeafDecides(Tree(), shape, a, key);
    }

    // ----- Splitting a page -----

    // Write `q` as the parent of every page in `bs`, one page at a time.
    method SetParents(bs: seq<Branch>, q: PageId)
      requires forall i :: 0 <= i < |bs| ==> bs[i].child in pages
      modifies this`pages
      ensures pages == Reparent(old(pages), bs, q)
    {
      var i := 0;
      while i < |bs|
        invariant 0 <= i <= |bs|
        invariant pages == Reparent(old(pages), bs[..i], q)
      {
        ghost var before := pages;
        pages := pages[bs[i].child := pages[bs[i].child].(parent := q)];
        ReparentStep(old(pages), bs, i, q);
        i := i + 1;
      }
      assert bs[..i] == bs;
    }

    method Split(p: PageId) returns (n: PageId)
      requires Configured() && p in pages
      requires pages[p].Internal? ==> forall i :: 0 <= i < |pages[p].branches| ==> pages[p].branches[i].child in pages
      modifies this`pages, this`nextPageId
      ensures Configured()
      ensures n == old(nextPageId) && nextPageId == n + 1
      ensures pages == SplitPages(old(pages), p, old(pages[p].Size()) / 2, n)
    {
      n := nextPageId;
      nextPageId := nextPageId + 1;
      var h := pages[p].Size() / 2;
      match pages[p] {
        case Leaf(q, next, es) =>
          pages := pages[n := Leaf(q, next, es[h..])];
          pages := pages[p := Leaf(q, n, es[..h])];
        case Internal(q, bs) =>
          pages := pages[n := Internal(q, bs[h..])];
          pages := pages[p := Internal(q, bs[..h])];
          SetParents(bs[h..], n);
      }
    }

    // ----- Insertion -----

    method Insert(key: Key, rid: RID) returns (ok: bool)
      requires Valid()
      modifies this
      ensures Valid()
      ensures ok <==> key !in old(Contents())
      ensures Contents() == if ok then old(Contents())[key := rid] else old(Contents())
      ensures !ok ==> pages == old(pages) && root == old(root) && nextPageId == old(nextPageId)
    {
      if root == INVALID_PAGE_ID {
        StartNewTree(key, rid);
        return true;
      }
      ok := InsertIntoLeaf(key, rid);
    }

    method StartNewTree(key: Key, rid: RID)
      requires Valid() && root == INVALID_PAGE_ID
      modifies this
      ensures Valid() && Contents() == map[key := rid]
    {
      var p := nextPageId;
      nextPageId := nextPageId + 1;
      root := p;
      pages := pages[p := Leaf(INVALID_PAGE_ID, INVALID_PAGE_ID, [])];
      var es, i := LeafInsert([], key, rid);
      pages := pages[p := pages[p].(entries := es)];
      shape := Shape(map[p := Span(0, MinusInf, PlusInf)], [p]);
      assert es == [Entry(key, rid)];
      OneLeafTree(Tree(), shape, Entry(key, rid));
    }

    method InsertIntoLeaf(key: Key, rid: RID) returns (ok: bool)
      requires Valid() && root != INVALID_PAGE_ID
      modifies this
      ensures Valid() && root != INVALID_PAGE_ID
      ensures ok <==> key !in old(Contents())
      ensures Contents() == if ok then old(Contents())[key := rid] else old(Contents())
      ensures !ok ==> pages == old(pages) && root == old(root) && nextPageId == old(nextPageId)
    {
      var p, a := FindLeafPage(key, false);
      var es := pages[p].entries;
      var found, r := LeafLookup(es, key);
      LeafDecides(Tree(), shape, a, key);
      if found {
        return false;
      }
      ok := true;
      assert PageOk(Tree(), shape, p);
      assert SizeOk(leafMax, internalMax, Tree(), p);
      if |es| + 1 > leafMax {
        SplitLeafAndInsert(p, a, key, rid);
      } else {
        PutIntoLeaf(p, a, key, rid);
      }
    }

    method PutIntoLeaf(p: PageId, ghost a: nat, key: Key, rid: RID)
      requires Valid() && root != INVALID_PAGE_ID
      requires p in pages && pages[p].Leaf? && p in shape.span && a < |shape.chain| && shape.chain[a] == p
      requires Within(key, shape.span[p].lo, shape.span[p].hi)
      requires |pages[p].entries| < leafMax
      requires forall i :: 0 <= i < |pages[p].entries| ==> pages[p].entries[i].key != key
      modifies this
      ensures Valid() && root != INVALID_PAGE_ID
      ensures Contents() == old(Contents())[key := rid]
    {
      ghost var s := Tree();
      assert PageOk(s, shape, p);
      assert SizeOk(leafMax, internalMax, s, p);
      var es, i := LeafInsert(pages[p].entries, key, rid);
      AddEntry(s, shape, p, a, i, Entry(key, rid));
      pages := pages[p := pages[p].(entries := es)];
      assert Tree() == SetEntries(s, p, es);
      SetEntriesSizes(leafMax, internalMax, s, p, es, INVALID_PAGE_ID);
    }

    // The leaf is full: split it, put the entry into the half it belongs to, and link
    // the new half.
    method SplitLeafAndInsert(p: PageId, ghost a: nat, key: Key, rid: RID)
      requires Valid() && root != INVALID_PAGE_ID
      requires p in pages && pages[p].Leaf? && p in shape.span && a < |shape.chain| && shape.chain[a] == p
      requires Within(key, shape.span[p].lo, shape.span[p].hi)
      requires |pages[p].entries| == leafMax
      requires forall i :: 0 <= i < |pages[p].entries| ==> pages[p].entries[i].key != key
      modifies this
      ensures Valid() && root != INVALID_PAGE_ID
      ensures Contents() == old(Contents())[key := rid]
    {
      ghost var s, g := Tree(), shape;
      assert PageOk(s, g, p);
      var n, popKey, i := SplitLeaf(p, key, rid);
      ghost var g', es := LeafPending(leafMax, internalMax, s, g, p, a, i, Entry(key, rid), n, nextPageId, pages, popKey);
      shape := g';
      InsertIntoParent(p, popKey, n, es);
    }

    method SplitLeaf(p: PageId, key: Key, rid: RID) returns (n: PageId, popKey: Key, ghost i: nat)
      requires Configured() && p in pages && pages[p].Leaf? && |pages[p].entries| >= 2 && Sorted(pages[p].entries)
      requires forall i :: 0 <= i < |pages[p].entries| ==> pages[p].entries[i].key != key
      modifies this`pages, this`nextPageId
      ensures Configured() && n == old(nextPageId) && nextPageId == n + 1
      ensures LeafSplit(old(pages), pages, p, i, Entry(key, rid), n, popKey)
    {
      ghost var pages0, es, h := pages, pages[p].entries, |pages[p].entries| / 2;
      n := Split(p);
      var left, right := pages[p], pages[n];
      popKey := right.entries[0].key;
      assert left.entries == es[..h] && right.entries == es[h..];
      assert es == left.entries + right.entries;
      var l, r, i' := InsertIntoHalf(left.entries, right.entries, key, rid);
      i := i';
      pages := pages[p := left.(entries := l)];
      pages := pages[n := right.(entries := r)];
      SplitLeafIs(pages0, p, n, l, r, pages);
    }

    // Link page `n`, split off `p` at key `k`, into the parent of `p`.
    method InsertIntoParent(p: PageId, k: Key, n: PageId, ghost es: seq<Entry>)
      requires Configured() && Pending(leafMax, internalMax, Tree(), shape, p, k, n, nextPageId)
      requires Entries(Attach(Tree(), p, k, n, nextPageId).pages, shape.chain) == es
      modifies this
      ensures Valid() && root != INVALID_PAGE_ID && Entries(pages, shape.chain) == es
      decreases Climb(Tree(), shape, p), 1
    {
      var q := pages[p].parent;
      ghost var c := Attach(Tree(), p, k, n, nextPageId);
      if q == INVALID_PAGE_ID {
        PopulateNewRoot(p, k, n);
        assert SizeOk(leafMax, internalMax, c, root);
      } else if |pages[q].branches| + 1 > internalMax {
        InsertIntoFullParent(p, k, n, es);
      } else {
        assert SizeOk(leafMax, internalMax, c, q);
        InsertNodeAfter(q, p, k, n);
      }
    }

    // A new root above the two halves of the old one.
    method PopulateNewRoot(p: PageId, k: Key, n: PageId)
      requires Configured() && p in pages && n in pages && p != n && nextPageId !in pages && pages[p].parent == INVALID_PAGE_ID
      modifies this`pages, this`root, this`nextPageId
      ensures Configured() && Tree() == Attach(old(Tree()), p, k, n, old(nextPageId)) && root == old(nextPageId)
    {
      var q := nextPageId;
      nextPageId := nextPageId + 1;
      var pgs := pages[q := Internal(INVALID_PAGE_ID, [Branch(k, p), Branch(k, n)])];
      pgs := pgs[p := pgs[p].(parent := q)];
      pgs := pgs[n := pgs[n].(parent := q)];
      assert pgs == Attach(Tree(), p, k, n, q).pages;
      pages, root := pgs, q;
    }

    // The parent is full: split it, link `n` into the half that lists `p`, and go up.
    method InsertIntoFullParent(p: PageId, k: Key, n: PageId, ghost es: seq<Entry>)
      requires Configured() && Pending(leafMax, internalMax, Tree(), shape, p, k, n, nextPageId)
      requires Entries(Attach(Tree(), p, k, n, nextPageId).pages, shape.chain) == es
      requires pages[p].parent != INVALID_PAGE_ID && |pages[pages[p].parent].branches| + 1 > internalMax
      modifies this
      ensures Valid() && root != INVALID_PAGE_ID && Entries(pages, shape.chain) == es
      decreases Climb(Tree(), shape, p), 0
    {
      var q := pages[p].parent;
      ghost var s, g := Tree(), shape;
      ghost var up := nextPageId;
      FullParent(leafMax, internalMax, s, g, p, k, n, up);
      var n2, popKey := SplitAndInsert(q, p, k, n);
      FullParentPending(leafMax, internalMax, s, g, p, k, n, up, n2, nextPageId);
      ClimbLess(leafMax, internalMax, s, g, p, k, n, up, n2, nextPageId, popKey, Tree());
      shape := SplitShape(Attach(s, p, k, n, up), g, q, popKey, n2, nextPageId, 0);
      InsertIntoParent(q, popKey, n2, es);
    }

    // Split the full page `q`, and link `n` after `p` in the half the key comparison picks.
    method SplitAndInsert(q: PageId, p: PageId, k: Key, n: PageId) returns (n2: PageId, popKey: Key)
      requires Configured() && q in pages && pages[q].Internal? && n in pages && n != q
      requires Splits(pages[q].branches, q, p, k)
      requires forall m :: 0 <= m < |pages[q].branches| ==> pages[q].branches[m].child in pages
      modifies this`pages, this`nextPageId
      ensures Configured() && n2 == old(nextPageId) && nextPageId == n2 + 1
      ensures popKey == old(pages[q]).branches[|old(pages[q]).branches| / 2].key
      ensures pages == SplitThenInsert(old(pages), q, |old(pages[q]).branches| / 2, n2, IndexOf(old(pages[q]).branches, p), k, n)
    {
      ghost var pages0, bs := pages, pages[q].branches;
      n2 := Split(q);
      SplitFull(pages0, q, |bs| / 2, n2);
      popKey := pages[n2].branches[0].key;
      IndexOfHalf(bs, p, |bs| / 2);
      var half := if k < popKey then q else n2;
      LinkIn(half, p, k, n);
    }

    method LinkIn(t: PageId, p: PageId, k: Key, n: PageId)
      requires t in pages && pages[t].Internal? && IndexOf(pages[t].branches, p) >= 0 && n in pages && n != t
      modifies this`pages
      ensures pages == PutBranch(old(pages), t, IndexOf(old(pages[t]).branches, p) + 1, k, n)
    {
      InsertNodeAfter(t, p, k, n);
      pages := pages[n := pages[n].(parent := t)];
    }

    method InsertNodeAfter(q: PageId, p: PageId, k: Key, n: PageId)
      requires q in pages && pages[q].Internal? && IndexOf(pages[q].branches, p) >= 0
      modifies this`pages
      ensures pages == old(pages)[q := old(pages[q]).(branches :=
                InsertAt(old(pages[q]).branches, IndexOf(old(pages[q]).branches, p) + 1, Branch(k, n)))]
    {
      var i := ValueIndex(pages[q].branches, p);
      pages := pages[q := pages[q].(branches := pages[q].branches[..i + 1] + [Branch(k, n)] + pages[q].branches[i + 1..])];
    }

    // ----- Removal -----

    // Remove a key; `dead` are the pages that left the tree.
    method Remove(key: Key) returns (dead: set<PageId>)
      requires Valid()
      modifies this
      ensures Valid()
      ensures Contents() == old(Contents()) - {key}
      ensures dead <= old(pages).Keys && pages.Keys == old(pages).Keys - dead
    {
      dead := {};
      if root == INVALID_PAGE_ID {
        return;
      }
      var p := RemoveFromLeaf(key);
      dead := Rebalance(p);
    }

    // Mend the tree after a leaf lost an entry.
    method Rebalance(p: PageId) returns (dead: set<PageId>)
      requires Configured() && root != INVALID_PAGE_ID
      requires WellFormed(Tree(), shape) && SizesBut(leafMax, internalMax, Tree(), p)
      requires p in pages && pages[p].Leaf? && |pages[p].entries| <= leafMax
      requires p != root ==> |pages[p].entries| >= leafMax / 2 - 1
      requires pages[p].parent == INVALID_PAGE_ID <==> p == root
      requires p in shape.span && root in shape.span
      modifies this
      ensures Valid() && Listing() == old(Entries(pages, shape.chain))
      ensures dead <= old(pages).Keys && pages.Keys == old(pages).Keys - dead
    {
      dead := {};
      if pages[p].parent == INVALID_PAGE_ID {
        var del := AdjustRoot(p);
        if del {
          dead := {p};
        }
        return;
      }
      var ok := false;
      if |pages[p].entries| < leafMax / 2 {
        ok, dead := CoalesceOrRedistribute(p);
      } else {
        assert SizeOk(leafMax, internalMax, Tree(), p);
      }
      if ok {
        dead := dead + {p};
      }
    }

    // Drop the key from the leaf that may hold it.
    method RemoveFromLeaf(key: Key) returns (p: PageId)
      requires Valid() && root != INVALID_PAGE_ID
      modifies this`pages
      ensures Configured() && WellFormed(Tree(), shape) && SizesBut(leafMax, internalMax, Tree(), p)
      ensures p in pages && pages[p].Leaf? && |pages[p].entries| <= leafMax
      ensures p != root ==> |pages[p].entries| >= leafMax / 2 - 1
      ensures pages.Keys == old(pages).Keys
      ensures pages[p].parent == INVALID_PAGE_ID <==> p == root
      ensures p in shape.span && root in shape.span
      ensures Sorted(Entries(pages, shape.chain)) && ToMap(Entries(pages, shape.chain)) == old(Contents()) - {key}
    {
      ghost var a;
      p, a := FindLeafPage(key, false);
      ghost var s := Tree();
      assert PageOk(s, shape, p);
      var es, i := LeafRemove(pages[p].entries, key);
      RemoveOne(leafMax, internalMax, s, shape, p, a, key, i, es);
      pages := pages[p := pages[p].(entries := es)];
      QParent(Tree(), shape, p);
    }

    // The root gives way when it is an empty leaf or has a single child.
    method AdjustRoot(r: PageId) returns (del: bool)
      requires Configured() && root != INVALID_PAGE_ID && r == root
      requires WellFormed(Tree(), shape) && SizesBut(leafMax, internalMax, Tree(), root)
      requires pages[r].Size() <= MaxSize(leafMax, internalMax, pages[r])
      modifies this
      ensures Valid() && Listing() == old(Entries(pages, shape.chain))
      ensures pages.Keys == if del then old(pages).Keys - {r} else old(pages).Keys
    {
      assert PageOk(Tree(), shape, root);
      if (pages[r].Leaf? && pages[r].Size() >= 1) || (!pages[r].Leaf? && pages[r].Size() >= 2) {
        assert SizeOk(leafMax, internalMax, Tree(), root);
        return false;
      }
      if pages[r].Leaf? {
        OnlyLeaf(Tree(), shape);
        root := INVALID_PAGE_ID;
        pages := pages - {r};
      } else {
        CollapseRoot(leafMax, internalMax, Tree(), shape);
        var c := pages[r].branches[0].child;
        root := c;
        pages := pages[c := pages[c].(parent := INVALID_PAGE_ID)] - {r};
      }
      return true;
    }

    // Bring a page that may be one slot short back to the minimum size.  `deleteNode`
    // says that the page itself left the tree, `dead` which other pages did.
    method CoalesceOrRedistribute(node: PageId) returns (deleteNode: bool, dead: set<PageId>)
      requires Configured() && root != INVALID_PAGE_ID && WellFormed(Tree(), shape)
      requires node in pages && node != root && node in shape.span && root in shape.span
      requires SizesBut(leafMax, internalMax, Tree(), node)
      requires var max := MaxSize(leafMax, internalMax, pages[node]);
        max / 2 - 1 <= pages[node].Size() <= max
      modifies this
      ensures Valid() && Listing() == old(Entries(pages, shape.chain))
      ensures dead <= old(pages).Keys - {node}
      ensures pages.Keys == old(pages).Keys - dead - if deleteNode then {node} else {}
      ensures forall x :: x in dead ==> x in old(shape).span && old(shape).span[x].height >= old(shape).span[node].height
      ensures var q := old(pages[node]).parent;
        q in old(pages) && old(pages[q]).Internal? && forall i :: 0 <= i < |old(pages[q]).branches| && old(pages[q]).branches[i].child == node ==>
          Mended(leafMax, internalMax, old(Tree()), q, i, node, pages, deleteNode, dead)
      decreases shape.span[root].height - shape.span[node].height, 2
    {
      deleteNode, dead := false, {};
      var max := MaxSize(leafMax, internalMax, pages[node]);
      assert PageOk(Tree(), shape, node);
      var q := pages[node].parent;
      if pages[node].Size() >= max / 2 {
        assert SizeOk(leafMax, internalMax, Tree(), node);
        return;
      }
      var i := ValueIndex(pages[q].branches, node);
      OnePlace(Tree(), shape, q, i);
      SiblingExists(leafMax, internalMax, Tree(), shape, q, node);
      var done := TryRedistribute(node, q, i);
      if done {
        return;
      }
      deleteNode, dead := MergeWithSibling(node, q, i);
    }

    // Merge with the left sibling, or the right one for a first child.
    method MergeWithSibling(node: PageId, q: PageId, i: nat) returns (deleteNode: bool, dead: set<PageId>)
      requires Configured() && root != INVALID_PAGE_ID && WellFormed(Tree(), shape)
      requires node in pages && node != root && node in shape.span && root in shape.span
      requires SizesBut(leafMax, internalMax, Tree(), node)
      requires pages[node].Size() == MaxSize(leafMax, internalMax, pages[node]) / 2 - 1
      requires q in pages && q != node && pages[q].Internal? && i < |pages[q].branches| && |pages[q].branches| >= 2 && pages[q].branches[i].child == node
      requires q in shape.span && shape.span[node].height < shape.span[q].height
      requires i > 0 ==>
        LeftSize(Tree(), q, i - 1) + LeftSize(Tree(), q, i) < MaxSize(leafMax, internalMax, pages[node])
      requires i + 1 < |pages[q].branches| ==>
        LeftSize(Tree(), q, i) + LeftSize(Tree(), q, i + 1) < MaxSize(leafMax, internalMax, pages[node])
      modifies this
      ensures Valid() && Listing() == old(Entries(pages, shape.chain))
      ensures dead <= old(pages).Keys - {node}
      ensures pages.Keys == old(pages).Keys - dead - if deleteNode then {node} else {}
      ensures forall x :: x in dead ==> x in old(shape).span && old(shape).span[x].height >= old(shape).span[node].height
      ensures deleteNode == (i > 0) && (i == 0 ==> old(pages[q]).branches[1].child in dead)
      decreases shape.span[root].height - shape.span[node].height, 1
    {
      deleteNode, dead := false, {};
      var ok;
      if i - 1 >= 0 {
        ok, dead := Coalesce(pages[q].branches[i - 1].child, node, q, i - 1, node);
        deleteNode := true;
      } else {
        var right := pages[q].branches[i + 1].child;
        NeighboursAlike(Tree(), shape, q, i);
        ok, dead := Coalesce(node, right, q, i, node);
        dead := dead + {right};
      }
      if ok {
        dead := dead + {q};
      }
    }

    // Take a slot from a sibling that has one to spare, the left sibling first.
    method TryRedistribute(node: PageId, q: PageId, i: nat) returns (done: bool)
      requires Configured() && root != INVALID_PAGE_ID && WellFormed(Tree(), shape)
      requires node in pages && node != root && SizesBut(leafMax, internalMax, Tree(), node)
      requires pages[node].Size() == MaxSize(leafMax, internalMax, pages[node]) / 2 - 1
      requires q in pages && pages[q].Internal? && i < |pages[q].branches| && pages[q].branches[i].child == node
      modifies this
      ensures done ==> Valid() && Listing() == old(Entries(pages, shape.chain)) && pages.Keys == old(pages).Keys
      ensures !done ==> pages == old(pages) && root == old(root) && shape == old(shape) && nextPageId == old(nextPageId)
      ensures !done && i > 0 ==>
        LeftSize(Tree(), q, i - 1) + LeftSize(Tree(), q, i) < MaxSize(leafMax, internalMax, pages[node])
      ensures !done && i + 1 < |pages[q].branches| ==>
        LeftSize(Tree(), q, i) + LeftSize(Tree(), q, i + 1) < MaxSize(leafMax, internalMax, pages[node])
      ensures done ==> Mended(leafMax, internalMax, old(Tree()), q, i, node, pages, false, {})
    {
      var max := MaxSize(leafMax, internalMax, pages[node]);
      if i - 1 >= 0 {
        var left := pages[q].branches[i - 1].child;
        NeighboursAlike(Tree(), shape, q, i - 1);
        if pages[left].Size() + pages[node].Size() >= max {
          Redistribute(left, node, 1, q, i - 1);
          return true;
        }
      }
      if i + 1 < |pages[q].branches| {
        var right := pages[q].branches[i + 1].child;
        NeighboursAlike(Tree(), shape, q, i);
        if pages[right].Size() + pages[node].Size() >= max {
          Redistribute(right, node, 0, q, i);
          return true;
        }
      }
      return false;
    }

    // Move one slot to `node` from its right neighbour (index 0) or its left one.
    method Redistribute(neighbour: PageId, node: PageId, index: int, ghost q: PageId, ghost i: nat)
      requires Configured() && root != INVALID_PAGE_ID
      requires Lacking(leafMax, internalMax, Tree(), shape, q, i, node)
      requires var bs := pages[q].branches;
        if index == 0 then bs[i].child == node && bs[i + 1].child == neighbour
        else bs[i].child == neighbour && bs[i + 1].child == node
      requires neighbour in pages && pages[neighbour].Size() + pages[node].Size() >= MaxSize(leafMax, internalMax, pages[node])
      modifies this
      ensures Valid() && root != INVALID_PAGE_ID && Listing() == old(Entries(pages, shape.chain)) && pages.Keys == old(pages).Keys
      ensures OneSlot(old(pages), pages, neighbour, node)
    {
      if index == 0 {
        TakeFirst(neighbour, node, q, i);
      } else {
        TakeLast(neighbour, node, q, i);
      }
    }

    method TakeFirst(neighbour: PageId, node: PageId, ghost q: PageId, ghost i: nat)
      requires Configured() && root != INVALID_PAGE_ID
      requires Lacking(leafMax, internalMax, Tree(), shape, q, i, node)
      requires pages[q].branches[i].child == node && pages[q].branches[i + 1].child == neighbour
      requires neighbour in pages && pages[neighbour].Size() + pages[node].Size() >= MaxSize(leafMax, internalMax, pages[node])
      modifies this
      ensures Valid() && root != INVALID_PAGE_ID && Listing() == old(Entries(pages, shape.chain)) && pages.Keys == old(pages).Keys
      ensures OneSlot(old(pages), pages, neighbour, node)
    {
      ghost var g := BorrowFromRight(leafMax, internalMax, Tree(), shape, q, i, node);
      LendFirstMoves(pages, q, i);
      MoveFirstToEndOf(neighbour, node, i);
      shape := g;
    }

    method TakeLast(neighbour: PageId, node: PageId, ghost q: PageId, ghost i: nat)
      requires Configured() && root != INVALID_PAGE_ID
      requires Lacking(leafMax, internalMax, Tree(), shape, q, i, node)
      requires pages[q].branches[i].child == neighbour && pages[q].branches[i + 1].child == node
      requires neighbour in pages && pages[neighbour].Size() + pages[node].Size() >= MaxSize(leafMax, internalMax, pages[node])
      modifies this
      ensures Valid() && root != INVALID_PAGE_ID && Listing() == old(Entries(pages, shape.chain)) && pages.Keys == old(pages).Keys
      ensures OneSlot(old(pages), pages, neighbour, node)
    {
      ghost var g := BorrowFromLeft(leafMax, internalMax, Tree(), shape, q, i, node);
      LendLastMoves(pages, q, i);
      MoveLastToFrontOf(neighbour, node, i);
      shape := g;
    }

    // Merge page `n` into its left neighbour `p`, and mend their parent `q`.  `ok` says
    // that the parent left the tree, `dead` which pages besides `n` and `q` did.
    method Coalesce(p: PageId, n: PageId, q: PageId, ghost i: nat, ghost node: PageId) returns (ok: bool, dead: set<PageId>)
      requires Configured() && root != INVALID_PAGE_ID
      requires Lacking(leafMax, internalMax, Tree(), shape, q, i, node)
      requires pages[q].branches[i].child == p && pages[q].branches[i + 1].child == n
      requires LeftSize(Tree(), q, i) + LeftSize(Tree(), q, i + 1) < MaxSize(leafMax, internalMax, pages[node])
      requires node in shape.span && root in shape.span
      modifies this
      ensures Valid() && Listing() == old(Entries(pages, shape.chain))
      ensures dead <= old(pages).Keys - {p, n, q}
      ensures pages.Keys == old(pages).Keys - {n} - dead - if ok then {q} else {}
      ensures forall x :: x in dead ==> x in old(shape).span && old(shape).span[x].height >= old(shape).span[node].height
      decreases shape.span[root].height - shape.span[node].height, 0
    {
      MergeInto(p, n, q, i, node);
      dead := {};
      if pages[q].parent == INVALID_PAGE_ID {
        ok := AdjustRoot(q);
      } else if |pages[q].branches| < internalMax / 2 {
        ok, dead := CoalesceOrRedistribute(q);
      } else {
        assert SizeOk(leafMax, internalMax, Tree(), q);
        ok := false;
      }
    }

    method MergeInto(p: PageId, n: PageId, q: PageId, ghost i: nat, ghost node: PageId)
      requires Configured() && root != INVALID_PAGE_ID
      requires Lacking(leafMax, internalMax, Tree(), shape, q, i, node)
      requires pages[q].branches[i].child == p && pages[q].branches[i + 1].child == n
      requires LeftSize(Tree(), q, i) + LeftSize(Tree(), q, i + 1) < MaxSize(leafMax, internalMax, pages[node])
      requires node in shape.span && root in shape.span
      modifies this`pages, this`shape
      ensures Configured() && WellFormed(Tree(), shape) && SizesBut(leafMax, internalMax, Tree(), q)
      ensures Entries(pages, shape.chain) == old(Entries(pages, shape.chain))
      ensures pages.Keys == old(pages).Keys - {n} && n in old(pages)
      ensures q in pages && pages[q].Internal?
      ensures (if q == root then 1 else internalMax / 2 - 1) <= |pages[q].branches| <= internalMax
      ensures pages[q].parent == INVALID_PAGE_ID <==> q == root
      ensures q in shape.span && root in shape.span
      ensures q != root ==>
        shape.span[root].height - shape.span[q].height < old(shape.span[root].height - shape.span[node].height)
      ensures q != root ==> shape.span[q].height < shape.span[root].height
      ensures shape.span.Keys == old(shape).span.Keys
      ensures forall x :: x in shape.span ==> shape.span[x].height == old(shape).span[x].height
      ensures p in shape.span && shape.span[p].height < shape.span[q].height && shape.span[node].height < shape.span[q].height
    {
      ghost var g := MergeNeighbours(leafMax, internalMax, Tree(), shape, q, i, node);
      MoveAllTo(n, p, i);
      shape := g;
    }

    // ----- Moves between neighbouring pages -----

    // The right neighbour's slots go to the end of the left one, and the right page
    // leaves the store.
    method MoveAllTo(n: PageId, p: PageId, ghost i: nat)
      requires n in pages && pages[n].parent in pages && pages[pages[n].parent].Internal?
      requires Adjacent(pages, pages[n].parent, i)
      requires pages[pages[n].parent].branches[i].child == p && pages[pages[n].parent].branches[i + 1].child == n
      modifies this`pages
      ensures pages == MergePages(old(pages), old(pages[n]).parent, i)
    {
      var q := pages[n].parent;
      var index := ValueIndex(pages[q].branches, n);
      var k := pages[q].branches[index].key;
      match pages[n] {
        case Leaf(_, next, es) =>
          var pgs := pages[q := pages[q].(branches := pages[q].branches[..index] + pages[q].branches[index + 1..])];
          pgs := pgs[p := pgs[p].(entries := pgs[p].entries + es, next := next)];
          pages := pgs - {n};
        case Internal(_, b) =>
          var b' := b[0 := Branch(k, b[0].child)];
          assert pages[p].branches + b' == Joined(pages[p].branches, k, b);
          var pgs := pages[p := pages[p].(branches := pages[p].branches + b')];
          pgs := pgs[q := pgs[q].(branches := pgs[q].branches[..index] + pgs[q].branches[index + 1..])];
          pages := pgs - {n};
          assert forall m :: 0 <= m < |b| ==> HasChild(b, b[m].child);
          SetParents(b, p);
      }
    }

    // The left neighbour's last slot goes to the front of the right one.
    method MoveLastToFrontOf(p: PageId, n: PageId, ghost i: nat)
      requires n in pages && pages[n].parent in pages && pages[pages[n].parent].Internal?
      requires Adjacent(pages, pages[n].parent, i)
      requires pages[pages[n].parent].branches[i].child == p && pages[pages[n].parent].branches[i + 1].child == n
      requires pages[p].Size() > 1
      modifies this`pages
      ensures pages == LendLast(old(pages), old(pages[n]).parent, i)
    {
      var q := pages[n].parent;
      var index := ValueIndex(pages[q].branches, n);
      var k := pages[q].branches[index].key;
      match pages[p] {
        case Leaf(_, _, es) =>
          var last := es[|es| - 1];
          var pgs := pages[n := pages[n].(entries := [last] + pages[n].entries)];
          pgs := pgs[q := pgs[q].(branches := pgs[q].branches[index := Branch(last.key, n)])];
          pages := pgs[p := pgs[p].(entries := es[..|es| - 1])];
        case Internal(_, a) =>
          var last := a[|a| - 1];
          var b := pages[n].branches;
          var pgs := pages[n := pages[n].(branches := [Branch(b[0].key, last.child), Branch(k, b[0].child)] + b[1..])];
          pgs := pgs[q := pgs[q].(branches := pgs[q].branches[index := Branch(last.key, n)])];
          pages := pgs[p := pgs[p].(branches := a[..|a| - 1])];
          assert HasChild(a, last.child);
          SetParents([last], n);
      }
    }

    // The right neighbour's first slot goes to the end of the left one.
    method MoveFirstToEndOf(n: PageId, p: PageId, ghost i: nat)
      requires n in pages && pages[n].parent in pages && pages[pages[n].parent].Internal?
      requires Adjacent(pages, pages[n].parent, i)
      requires pages[pages[n].parent].branches[i].child == p && pages[pages[n].parent].branches[i + 1].child == n
      requires pages[n].Size() > 1
      modifies this`pages
      ensures pages == LendFirst(old(pages), old(pages[n]).parent, i)
    {
      var q := pages[n].parent;
      var index := ValueIndex(pages[q].branches, n);
      var k := pages[q].branches[index].key;
      match pages[n] {
        case Leaf(_, _, es) =>
          var pgs := pages[p := pages[p].(entries := pages[p].entries + [es[0]])];
          pgs := pgs[n := pgs[n].(entries := es[1..])];
          pages := pgs[q := pgs[q].(branches := pgs[q].branches[index := Branch(pgs[n].entries[0].key, n)])];
        case Internal(_, b) =>
          var pgs := pages[p := pages[p].(branches := pages[p].branches + [Branch(k, b[0].child)])];
          pgs := pgs[q := pgs[q].(branches := pgs[q].branches[index := Branch(b[1].key, n)])];
          pages := pgs[n := pgs[n].(branches := b[1..])];
          assert HasChild(b, b[0].child);
          SetParents([b[0]], p);
      }
    }
  }
}
