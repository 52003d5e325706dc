/**
 Local depths of the extendible hash table: an insert deepens the bucket of its key only if
 the bucket is full, and no other bucket.
 */
module ExtendibleHashDepths {
  import opened LowBits
  import opened ExtendibleHashTable

  ghost predicate HasSlot<K, V>(hash: K -> nat, t: Table<K, V>, k: K) {
    SlotOf(hash, t, k) < |t.dir| && t.dir[SlotOf(hash, t, k)] < |t.buckets|
  }

  // The local depth of the bucket of a key.
  ghost function DepthOf<K, V>(hash: K -> nat, t: Table<K, V>, k: K): nat {
    if HasSlot(hash, t, k) then At(t, SlotOf(hash, t, k)).depth else 0
  }

  ghost predicate Shares<K, V>(hash: K -> nat, t: Table<K, V>, k: K, x: K) {
    HasSlot(hash, t, k) && HasSlot(hash, t, x) && t.dir[SlotOf(hash, t, k)] == t.dir[SlotOf(hash, t, x)]
  }

  // The key is new to its bucket, and the bucket is full.
  ghost predicate Overflows<K, V>(hash: K -> nat, t: Table<K, V>, k: K) {
    HasSlot(hash, t, k) && var rs := At(t, SlotOf(hash, t, k)).records; Search(rs, k) < 0 && |rs| >= t.size
  }

  // From `t` to `t'` the keys in the bucket of `k` get deeper, if any do.
  ghost predicate Deepens<K(!new), V>(hash: K -> nat, t: Table<K, V>, t': Table<K, V>, k: K, deeper: bool) {
    forall x {:trigger DepthOf(hash, t', x)} ::
      && DepthOf(hash, t', x) == DepthOf(hash, t, x) + (if deeper && Shares(hash, t, k, x) then 1 else 0)
      && (Shares(hash, t', k, x) ==> Shares(hash, t, k, x))
  }

  lemma SlotIn<K, V>(hash: K -> nat, t: Table<K, V>, k: K)
    requires Ok(hash, t)
    ensures HasSlot(hash, t, k)
  {
    assert SlotOk(hash, t, SlotOf(hash, t, k));
  }

  lemma SplitDeepens<K(!new), V>(hash: K -> nat, t: Table<K, V>, k: K, rs: seq<Record<K, V>>)
    requires Ok(hash, t)
    ensures HasSlot(hash, t, k) && Deepens(hash, t, Split(hash, t, SlotOf(hash, t, k), rs), k, true)
  {
    SlotIn(hash, t, k);
    var b := SlotOf(hash, t, k);
    var t' := Split(hash, t, b, rs);
    forall x
      ensures DepthOf(hash, t', x) == DepthOf(hash, t, x) + (if Shares(hash, t, k, x) then 1 else 0)
      ensures Shares(hash, t', k, x) ==> Shares(hash, t, k, x)
    {
      SlotIn(hash, t, x);
      SplitAt(hash, t, b, rs, SlotOf(hash, t, x));
      SplitAt(hash, t, b, rs, b);
    }
  }

  // Doubling changes neither depths nor who shares a bucket.
  lemma DoubleDepths<K(!new), V>(hash: K -> nat, t: Table<K, V>, k: K, x: K)
    requires Ok(hash, t)
    ensures Ok(hash, Doubled(t)) && DepthOf(hash, Doubled(t), x) == DepthOf(hash, t, x)
    ensures Shares(hash, Doubled(t), k, x) <==> Shares(hash, t, k, x)
  {
    DoubleKeeps(hash, t);
    DoubledKey(hash, t, k);
    DoubledKey(hash, t, x);
  }

  lemma DoubledKey<K, V>(hash: K -> nat, t: Table<K, V>, x: K)
    requires Ok(hash, t) && Ok(hash, Doubled(t))
    ensures HasSlot(hash, t, x) && HasSlot(hash, Doubled(t), x)
    ensures Doubled(t).dir[SlotOf(hash, Doubled(t), x)] == t.dir[SlotOf(hash, t, x)]
  {
    SlotIn(hash, t, x);
    SlotIn(hash, Doubled(t), x);
    DoubledSlot(hash, t, SlotOf(hash, Doubled(t), x));
    LowLow(hash(x), t.depth, t.depth + 1);
  }

  lemma GrownDeepens<K(!new), V>(hash: K -> nat, t: Table<K, V>, k: K)
    requires Ok(hash, t) && MustGrow(hash, t, k)
    ensures Overflows(hash, t, k) && Deepens(hash, t, Grown(hash, t, SlotOf(hash, t, k)), k, true)
  {
    var t1, b, rs := Doubled(t), SlotOf(hash, t, k), At(t, SlotOf(hash, t, k)).records;
    var t' := Grown(hash, t, b);
    GrowStart(hash, t, k);
    DoubledKey(hash, t, k);
    GrownSlots(hash, t, k);
    SplitDeepens(hash, t1, k, rs);
    forall x
      ensures DepthOf(hash, t', x) == DepthOf(hash, t, x) + (if Shares(hash, t, k, x) then 1 else 0)
      ensures Shares(hash, t', k, x) ==> Shares(hash, t, k, x)
    {
      DoubleDepths(hash, t, k, x);
      assert DepthOf(hash, Split(hash, t1, SlotOf(hash, t1, k), rs), x) == DepthOf(hash, t', x);
    }
  }

  // It does not matter by which of its slots a bucket is split.
  lemma GrownSlots<K, V>(hash: K -> nat, t: Table<K, V>, k: K)
    requires Ok(hash, t) && MustGrow(hash, t, k)
    ensures var t1, b := Doubled(t), SlotOf(hash, t, k);
      && HasSlot(hash, t1, k) && Split(hash, t1, SlotOf(hash, t1, k), At(t, b).records) == Grown(hash, t, b)
  {
    GrowStart(hash, t, k);
    DoubledKey(hash, t, k);
    var t1, b, c := Doubled(t), SlotOf(hash, t, k), SlotOf(hash, Doubled(t), k);
    LowLow(hash(k), t.depth, t.depth + 1);
    LowLow(hash(k), t.depth, t.depth);
    assert t1.dir[b] == t1.dir[c] && Low(b, t.depth) == Low(c, t.depth);
    assert Split(hash, t1, c, At(t, b).records).dir == Split(hash, t1, b, At(t, b).records).dir;
  }

  lemma PutDepths<K(!new), V>(hash: K -> nat, t: Table<K, V>, k: K, rs: seq<Record<K, V>>)
    requires Ok(hash, t)
    ensures HasSlot(hash, t, k) && Deepens(hash, t, SetRecords(t, SlotOf(hash, t, k), rs), k, false)
  {
    SlotIn(hash, t, k);
    var t' := SetRecords(t, SlotOf(hash, t, k), rs);
    forall x
      ensures DepthOf(hash, t', x) == DepthOf(hash, t, x)
      ensures Shares(hash, t', k, x) ==> Shares(hash, t, k, x)
    {
      SlotIn(hash, t, x);
    }
  }

  // ----- Whole inserts -----

  // Over one or several passes: with a full bucket the keys in it got deeper, and only they.
  ghost predicate DeeperBy<K(!new), V>(hash: K -> nat, t: Table<K, V>, t': Table<K, V>, k: K, full: bool) {
    forall x {:trigger DepthOf(hash, t', x)} ::
      && DepthOf(hash, t, x) <= DepthOf(hash, t', x)
      && (DepthOf(hash, t, x) < DepthOf(hash, t', x) <==> full && Shares(hash, t, k, x))
      && (Shares(hash, t', k, x) ==> Shares(hash, t, k, x))
  }

  lemma DeeperItself<K(!new), V>(hash: K -> nat, t: Table<K, V>, k: K)
    ensures DeeperBy(hash, t, t, k, false)
  {
  }

  lemma DeeperStep<K(!new), V>(hash: K -> nat, t: Table<K, V>, t1: Table<K, V>, t2: Table<K, V>, k: K, full: bool, deeper: bool)
    requires DeeperBy(hash, t, t1, k, full) && Deepens(hash, t1, t2, k, deeper)
    requires full || t1 == t
    ensures DeeperBy(hash, t, t2, k, full || deeper)
  {
    forall x
      ensures DepthOf(hash, t, x) <= DepthOf(hash, t2, x)
      ensures DepthOf(hash, t, x) < DepthOf(hash, t2, x) <==> (full || deeper) && Shares(hash, t, k, x)
      ensures Shares(hash, t2, k, x) ==> Shares(hash, t, k, x)
    {
      assert DepthOf(hash, t2, x) >= DepthOf(hash, t1, x) >= DepthOf(hash, t, x);
    }
  }
}
