/**
 The page store of the B+ tree, and what it means for it to be a B+ tree.

 A tree is a map from page ids to leaf and internal pages, linked downwards by
 child ids, upwards by parent ids and sideways by the leaf chain.  Well-formedness
 is stated page by page against a `Shape`: the height of every page above the
 leaves, the half-open key interval [lo, hi) it answers for, and the list of leaves
 from left to right.  Keys are integers; any total order on the keys of one
 fixed-size key type embeds into them.
 */
module BPlusTreeShape {

  type PageId = int
  type Key = int

  const INVALID_PAGE_ID: PageId := -1

  datatype RID = RID(pageId: int, slot: int)
  datatype Entry = Entry(key: Key, rid: RID)
  datatype Branch = Branch(key: Key, child: PageId)

  // The key of an internal page's slot 0 is never a separator.
  datatype Page =
    | Leaf(parent: PageId, next: PageId, entries: seq<Entry>)
    | Internal(parent: PageId, branches: seq<Branch>)
  {
    function Size(): nat {
      if Leaf? then |entries| else |branches|
    }
  }

  datatype Store = Store(pages: map<PageId, Page>, root: PageId)

  datatype Bound = MinusInf | At(key: Key) | PlusInf

  predicate Lt(a: Bound, b: Bound) {
    match (a, b)
    case (At(x), At(y)) => x < y
    case (MinusInf, MinusInf) => false
    case (MinusInf, _) => true
    case (At(_), PlusInf) => true
    case (_, _) => false
  }

  predicate Within(k: Key, lo: Bound, hi: Bound) {
    !Lt(At(k), lo) && Lt(At(k), hi)
  }

  datatype Span = Span(height: nat, lo: Bound, hi: Bound)
  datatype Shape = Shape(span: map<PageId, Span>, chain: seq<PageId>)

  // ----- One page -----

  ghost predicate Sorted(es: seq<Entry>) {
    forall i, j :: 0 <= i < j < |es| ==> es[i].key < es[j].key
  }

  predicate HasChild(bs: seq<Branch>, p: PageId) {
    exists i :: 0 <= i < |bs| && bs[i].child == p
  }

  // The interval child `i` answers for when its page answers for `sp`.
  function ChildSpan(bs: seq<Branch>, i: nat, sp: Span): Span
    requires i < |bs| && sp.height > 0
  {
    Span(sp.height - 1,
         if i == 0 then sp.lo else At(bs[i].key),
         if i + 1 < |bs| then At(bs[i + 1].key) else sp.hi)
  }

  ghost predicate ChildOk(s: Store, g: Shape, p: PageId, c: PageId, sp: Span) {
    && c in s.pages
    && c in g.span
    && c != s.root
    && s.pages[c].parent == p
    && g.span[c] == sp
  }

  ghost predicate ChildrenOk(s: Store, g: Shape, p: PageId, bs: seq<Branch>, sp: Span)
    requires sp.height > 0
  {
    forall i :: 0 <= i < |bs| ==> ChildOk(s, g, p, bs[i].child, ChildSpan(bs, i, sp))
  }

  ghost predicate ParentOk(s: Store, g: Shape, p: PageId)
    requires p in s.pages && p in g.span
  {
    var q := s.pages[p].parent;
    if p == s.root then
      q == INVALID_PAGE_ID && g.span[p].lo == MinusInf && g.span[p].hi == PlusInf
    else
      && q in s.pages
      && s.pages[q].Internal?
      && HasChild(s.pages[q].branches, p)
      && s.root in g.span
      && g.span[p].height < g.span[s.root].height
  }

  ghost predicate PageOk(s: Store, g: Shape, p: PageId)
    requires p in s.pages
  {
    && p != INVALID_PAGE_ID
    && p in g.span
    && Lt(g.span[p].lo, g.span[p].hi)
    && ParentOk(s, g, p)
    && match s.pages[p]
       case Leaf(_, _, es) =>
         && g.span[p].height == 0
         && Sorted(es)
         && forall i :: 0 <= i < |es| ==> Within(es[i].key, g.span[p].lo, g.span[p].hi)
       case Internal(_, bs) =>
         && g.span[p].height > 0
         && |bs| > 0
         && ChildrenOk(s, g, p, bs, g.span[p])
  }

  // ----- The leaf chain -----

  ghost predicate ChainOk(s: Store, g: Shape) {
    && |g.chain| > 0
    && (forall i {:trigger LinkOk(s, g, i)} :: 0 <= i < |g.chain| ==> LinkOk(s, g, i))
    && (forall p :: p in s.pages && s.pages[p].Leaf? ==> p in g.chain)
  }

  ghost predicate LinkOk(s: Store, g: Shape, i: nat)
    requires i < |g.chain|
  {
    var p := g.chain[i];
    && p in s.pages
    && s.pages[p].Leaf?
    && p in g.span
    && (i == 0 ==> g.span[p].lo == MinusInf)
    && (if i + 1 < |g.chain| then
          && s.pages[p].next == g.chain[i + 1]
          && g.chain[i + 1] in g.span
          && g.span[p].hi == g.span[g.chain[i + 1]].lo
        else
          && s.pages[p].next == INVALID_PAGE_ID
          && g.span[p].hi == PlusInf)
  }

  // ----- The whole store -----

  ghost predicate WellFormed(s: Store, g: Shape) {
    && s.root in s.pages
    && (forall p {:trigger PageOk(s, g, p)} :: p in s.pages ==> PageOk(s, g, p))
    && ChainOk(s, g)
  }

  function LeafEntries(pages: map<PageId, Page>, p: PageId): seq<Entry> {
    if p in pages && pages[p].Leaf? then pages[p].entries else []
  }

  // The entries met by walking a list of leaves.
  function Entries(pages: map<PageId, Page>, chain: seq<PageId>): seq<Entry> {
    if chain == [] then [] else LeafEntries(pages, chain[0]) + Entries(pages, chain[1..])
  }

  lemma {:induction false} EntriesConcat(pages: map<PageId, Page>, a: seq<PageId>, b: seq<PageId>)
    ensures Entries(pages, a + b) == Entries(pages, a) + Entries(pages, b)
  {
    if a == [] {
      assert a + b == b;
    } else {
      assert (a + b)[1..] == a[1..] + b;
      EntriesConcat(pages, a[1..], b);
    }
  }

  lemma {:induction false} EntriesFrame(pages: map<PageId, Page>, pages': map<PageId, Page>, chain: seq<PageId>)
    requires forall i :: 0 <= i < |chain| ==> LeafEntries(pages, chain[i]) == LeafEntries(pages', chain[i])
    ensures Entries(pages, chain) == Entries(pages', chain)
  {
    if chain != [] {
      EntriesFrame(pages, pages', chain[1..]);
    }
  }

  // The entries of one leaf, between those before it and those after it.
  lemma EntriesAround(pages: map<PageId, Page>, chain: seq<PageId>, a: nat)
    requires a < |chain|
    ensures Entries(pages, chain)
         == Entries(pages, chain[..a]) + LeafEntries(pages, chain[a]) + Entries(pages, chain[a + 1..])
  {
    assert chain == chain[..a] + chain[a..];
    EntriesConcat(pages, chain[..a], chain[a..]);
    assert chain[a..][1..] == chain[a + 1..];
  }

  // ----- Order along the chain and along a page -----

  lemma {:induction false} ChainIncreasing(s: Store, g: Shape, i: nat, j: nat)
    requires WellFormed(s, g)
    requires i < j < |g.chain|
    ensures LinkOk(s, g, i) && LinkOk(s, g, j)
    ensures !Lt(g.span[g.chain[j]].lo, g.span[g.chain[i]].hi)
    ensures Lt(g.span[g.chain[i]].lo, g.span[g.chain[j]].lo)
    decreases j - i
  {
    assert LinkOk(s, g, i) && LinkOk(s, g, j);
    assert PageOk(s, g, g.chain[i]);
    if i + 1 < j {
      ChainIncreasing(s, g, i + 1, j);
      assert LinkOk(s, g, i + 1);
    }
  }

  lemma {:induction false} SeparatorsIncreasing(s: Store, g: Shape, p: PageId, i: nat, j: nat)
    requires WellFormed(s, g)
    requires p in s.pages && s.pages[p].Internal?
    requires i < j < |s.pages[p].branches|
    ensures PageOk(s, g, p)
    ensures var bs := s.pages[p].branches; var sp := g.span[p];
      && !Lt(ChildSpan(bs, j, sp).lo, ChildSpan(bs, i, sp).hi)
      && Lt(ChildSpan(bs, i, sp).lo, ChildSpan(bs, j, sp).lo)
      && Lt(ChildSpan(bs, i, sp).hi, ChildSpan(bs, j, sp).hi)
    decreases j - i
  {
    assert PageOk(s, g, p);
    var bs := s.pages[p].branches;
    assert PageOk(s, g, bs[i].child);
    assert PageOk(s, g, bs[j].child);
    if i + 1 < j {
      SeparatorsIncreasing(s, g, p, i + 1, j);
    }
  }
}
