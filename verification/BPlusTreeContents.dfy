/**
 The finite map a B+ tree stands for: its entries, read along the leaf chain, are
 strictly sorted, and a leaf found by key holds every entry with that key.
 */
module BPlusTreeContents {
  import opened BPlusTreeShape

  // The map of a sorted list of entries.
  ghost function ToMap(es: seq<Entry>): map<Key, RID>
    requires Sorted(es)
  {
    map i | 0 <= i < |es| :: es[i].key := es[i].rid
  }

  // An entry is in the list exactly when the map says so.
  lemma InMap(es: seq<Entry>, e: Entry)
    requires Sorted(es)
    ensures e in es <==> e.key in ToMap(es) && ToMap(es)[e.key] == e.rid
  {
    if e in es {
      var i :| 0 <= i < |es| && es[i] == e;
      assert e.key in ToMap(es);
    }
    if e.key in ToMap(es) {
      var i :| 0 <= i < |es| && es[i].key == e.key;
    }
  }

  // ----- Entries of a run of leaves lie in that run's interval -----

  lemma {:induction false} EntriesIn(s: Store, g: Shape, a: nat, b: nat, e: Entry)
    requires WellFormed(s, g) && a < b <= |g.chain|
    requires e in Entries(s.pages, g.chain[a..b])
    ensures g.chain[a] in g.span && g.chain[b - 1] in g.span
    ensures !Lt(At(e.key), g.span[g.chain[a]].lo) && Lt(At(e.key), g.span[g.chain[b - 1]].hi)
    decreases b - a
  {
    FirstLeaf(s, g, a, b);
    RunBounds(s, g, a, b, e.key);
    if e in LeafEntries(s.pages, g.chain[a]) {
      LeafEntryIn(s, g, a, e);
    } else if a + 1 < b {
      EntriesIn(s, g, a + 1, b, e);
    }
  }

  // The bounds of a run: below the end of its first leaf is below the end of its last,
  // and above the start of a later leaf is above the start of the first.
  lemma RunBounds(s: Store, g: Shape, a: nat, b: nat, k: Key)
    requires WellFormed(s, g) && a < b <= |g.chain|
    ensures g.chain[a] in g.span && g.chain[b - 1] in g.span
    ensures Lt(At(k), g.span[g.chain[a]].hi) ==> Lt(At(k), g.span[g.chain[b - 1]].hi)
    ensures a + 1 < b ==> g.chain[a + 1] in g.span && (!Lt(At(k), g.span[g.chain[a + 1]].lo) ==> !Lt(At(k), g.span[g.chain[a]].lo))
  {
    assert LinkOk(s, g, a) && LinkOk(s, g, b - 1);
    assert PageOk(s, g, g.chain[b - 1]);
    if a + 1 < b {
      ChainIncreasing(s, g, a, b - 1);
      ChainIncreasing(s, g, a, a + 1);
    }
  }

  lemma FirstLeaf(s: Store, g: Shape, a: nat, b: nat)
    requires a < b <= |g.chain|
    ensures Entries(s.pages, g.chain[a..b]) == LeafEntries(s.pages, g.chain[a]) + Entries(s.pages, g.chain[a + 1..b])
  {
    assert g.chain[a..b][1..] == g.chain[a + 1..b];
  }

  lemma LeafEntryIn(s: Store, g: Shape, a: nat, e: Entry)
    requires WellFormed(s, g) && a < |g.chain| && e in LeafEntries(s.pages, g.chain[a])
    ensures g.chain[a] in g.span
    ensures !Lt(At(e.key), g.span[g.chain[a]].lo) && Lt(At(e.key), g.span[g.chain[a]].hi)
  {
    assert LinkOk(s, g, a);
    assert PageOk(s, g, g.chain[a]);
  }

  lemma {:induction false} EntriesSortedFrom(s: Store, g: Shape, a: nat)
    requires WellFormed(s, g) && a <= |g.chain|
    ensures Sorted(Entries(s.pages, g.chain[a..]))
    decreases |g.chain| - a
  {
    if a < |g.chain| {
      EntriesSortedFrom(s, g, a + 1);
      var front, rest := LeafEntries(s.pages, g.chain[a]), Entries(s.pages, g.chain[a + 1..]);
      assert g.chain[a..][1..] == g.chain[a + 1..];
      assert LinkOk(s, g, a);
      assert PageOk(s, g, g.chain[a]);
      forall e | e in rest
        ensures Lt(g.span[g.chain[a]].lo, At(e.key)) && !Lt(At(e.key), g.span[g.chain[a]].hi)
      {
        EntriesAbove(s, g, a, e);
      }
      SortedConcat(front, rest);
    }
  }

  lemma EntriesAbove(s: Store, g: Shape, a: nat, e: Entry)
    requires WellFormed(s, g) && a < |g.chain| && e in Entries(s.pages, g.chain[a + 1..])
    ensures g.chain[a] in g.span
    ensures Lt(g.span[g.chain[a]].lo, At(e.key)) && !Lt(At(e.key), g.span[g.chain[a]].hi)
  {
    assert LinkOk(s, g, a);
    assert PageOk(s, g, g.chain[a]);
    if a + 1 < |g.chain| {
      assert g.chain[a + 1..] == g.chain[a + 1..|g.chain|];
      EntriesIn(s, g, a + 1, |g.chain|, e);
    }
  }

  lemma SortedConcat(xs: seq<Entry>, ys: seq<Entry>)
    requires Sorted(xs) && Sorted(ys)
    requires forall x, y :: x in xs && y in ys ==> x.key < y.key
    ensures Sorted(xs + ys)
  {
  }

  /** The entries of a B+ tree, from the leftmost leaf on, are in strictly increasing key order. */
  lemma EntriesSorted(s: Store, g: Shape)
    requires WellFormed(s, g)
    ensures Sorted(Entries(s.pages, g.chain))
  {
    EntriesSortedFrom(s, g, 0);
    assert g.chain[0..] == g.chain;
  }

  // The entries before and after one leaf of the chain.
  function Before(s: Store, g: Shape, a: nat): seq<Entry>
    requires a < |g.chain|
  {
    Entries(s.pages, g.chain[..a])
  }

  function After(s: Store, g: Shape, a: nat): seq<Entry>
    requires a < |g.chain|
  {
    Entries(s.pages, g.chain[a + 1..])
  }

  // Entries before a leaf are below its interval, entries after it above.
  lemma {:induction false} OutsideLeaf(s: Store, g: Shape, a: nat, k: Key)
    requires WellFormed(s, g) && a < |g.chain|
    requires g.chain[a] in g.span && Within(k, g.span[g.chain[a]].lo, g.span[g.chain[a]].hi)
    ensures forall e :: e in Before(s, g, a) ==> e.key < k
    ensures forall e :: e in After(s, g, a) ==> k < e.key
  {
    assert LinkOk(s, g, a);
    forall e | e in Before(s, g, a)
      ensures e.key < k
    {
      if a > 0 {
        assert g.chain[..a] == g.chain[0..a];
        EntriesIn(s, g, 0, a, e);
        assert LinkOk(s, g, a - 1);
      }
    }
    forall e | e in After(s, g, a)
      ensures k < e.key
    {
      if a + 1 < |g.chain| {
        assert g.chain[a + 1..] == g.chain[a + 1..|g.chain|];
        EntriesIn(s, g, a + 1, |g.chain|, e);
      }
    }
  }

  /** A key is in the tree exactly when it is in the leaf whose interval contains it. */
  lemma LeafDecides(s: Store, g: Shape, a: nat, k: Key)
    requires WellFormed(s, g) && a < |g.chain|
    requires g.chain[a] in g.span && Within(k, g.span[g.chain[a]].lo, g.span[g.chain[a]].hi)
    ensures Sorted(Entries(s.pages, g.chain))
    ensures var m := ToMap(Entries(s.pages, g.chain));
      var es := LeafEntries(s.pages, g.chain[a]);
      && (k in m <==> exists i :: 0 <= i < |es| && es[i].key == k)
      && forall i :: 0 <= i < |es| && es[i].key == k ==> k in m && m[k] == es[i].rid
  {
    EntriesSorted(s, g);
    OutsideLeaf(s, g, a, k);
    EntriesAround(s.pages, g.chain, a);
    MiddleDecides(Before(s, g, a), LeafEntries(s.pages, g.chain[a]), After(s, g, a), k);
  }

  lemma MiddleDecides(xs: seq<Entry>, es: seq<Entry>, ys: seq<Entry>, k: Key)
    requires Sorted(xs + es + ys)
    requires forall e :: e in xs ==> e.key < k
    requires forall e :: e in ys ==> k < e.key
    ensures var m := ToMap(xs + es + ys);
      && (k in m <==> exists i :: 0 <= i < |es| && es[i].key == k)
      && forall i :: 0 <= i < |es| && es[i].key == k ==> k in m && m[k] == es[i].rid
  {
    var all := xs + es + ys;
    var m := ToMap(all);
    if k in m {
      InMap(all, Entry(k, m[k]));
      assert Entry(k, m[k]) in es;
    }
    forall i | 0 <= i < |es| && es[i].key == k
      ensures k in m && m[k] == es[i].rid
    {
      assert es[i] in all;
      InMap(all, es[i]);
    }
  }

  // Adding or dropping one entry of a sorted list updates its map at that key alone.
  lemma ToMapInsert(xs: seq<Entry>, e: Entry, ys: seq<Entry>)
    requires Sorted(xs + [e] + ys)
    ensures Sorted(xs + ys) && e.key !in ToMap(xs + ys)
    ensures ToMap(xs + [e] + ys) == ToMap(xs + ys)[e.key := e.rid]
    ensures ToMap(xs + ys) == ToMap(xs + [e] + ys) - {e.key}
  {
    DropSorted(xs, e, ys);
    forall x | x in xs + ys ensures x.key != e.key {
      NotTwice(xs, e, ys, x);
    }
    MapOfAdded(xs + ys, xs + [e] + ys, e);
  }

  lemma DropSorted(xs: seq<Entry>, e: Entry, ys: seq<Entry>)
    requires Sorted(xs + [e] + ys)
    ensures Sorted(xs + ys)
  {
    var full, less := xs + [e] + ys, xs + ys;
    assert forall i :: 0 <= i < |less| ==> less[i] == full[if i < |xs| then i else i + 1];
  }

  lemma MapOfAdded(less: seq<Entry>, full: seq<Entry>, e: Entry)
    requires Sorted(less) && Sorted(full)
    requires forall x :: x in full <==> x in less || x == e
    requires forall x :: x in less ==> x.key != e.key
    ensures e.key !in ToMap(less)
    ensures ToMap(full) == ToMap(less)[e.key := e.rid]
    ensures ToMap(less) == ToMap(full) - {e.key}
  {
    var m, m' := ToMap(less), ToMap(full);
    InMap(full, e);
    forall k | k != e.key
      ensures k in m <==> k in m'
      ensures k in m ==> m'[k] == m[k]
    {
      SameAt(less, full, e, k);
    }
  }

  lemma SameAt(less: seq<Entry>, full: seq<Entry>, e: Entry, k: Key)
    requires Sorted(less) && Sorted(full) && k != e.key
    requires forall x :: x in full <==> x in less || x == e
    ensures k in ToMap(less) <==> k in ToMap(full)
    ensures k in ToMap(less) ==> ToMap(full)[k] == ToMap(less)[k]
  {
    var m, m' := ToMap(less), ToMap(full);
    if k in m { InMap(less, Entry(k, m[k])); InMap(full, Entry(k, m[k])); }
    if k in m' { InMap(full, Entry(k, m'[k])); InMap(less, Entry(k, m'[k])); }
  }

  lemma NotTwice(xs: seq<Entry>, e: Entry, ys: seq<Entry>, x: Entry)
    requires Sorted(xs + [e] + ys) && x in xs + ys
    ensures x.key != e.key
  {
    var full := xs + [e] + ys;
    assert full[|xs|] == e;
    if x in xs {
      var i :| 0 <= i < |xs| && xs[i] == x;
      assert full[i] == x;
    } else {
      var i :| 0 <= i < |ys| && ys[i] == x;
      assert full[|xs| + 1 + i] == x;
    }
  }

  // A tree of one leaf with one entry.
  lemma OneLeafTree(s: Store, g: Shape, e: Entry)
    requires s.root != INVALID_PAGE_ID && s.pages == map[s.root := Leaf(INVALID_PAGE_ID, INVALID_PAGE_ID, [e])]
    requires g == Shape(map[s.root := Span(0, MinusInf, PlusInf)], [s.root])
    ensures WellFormed(s, g) && Entries(s.pages, g.chain) == [e]
    ensures Sorted([e]) && ToMap([e]) == map[e.key := e.rid]
  {
    assert PageOk(s, g, s.root) && LinkOk(s, g, 0);
    assert [s.root][1..] == [];
    assert [e][0] == e;
  }
}
