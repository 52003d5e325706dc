/**
 The extendible hash table as the program keeps it: a directory of shared buckets, here
 names into `buckets`, changed in place by `Insert` and `Remove`.
 */
module ExtendibleHashing {
  import opened LowBits
  import opened ExtendibleHashTable
  import opened ExtendibleHashDepths
  import opened Wrappers

  // The first record with the key, or the end.
  method FindIf<K(==), V>(rs: seq<Record<K, V>>, k: K) returns (i: nat)
    ensures i == if Search(rs, k) < 0 then |rs| else Search(rs, k)
  {
    i := 0;
    while i < |rs| && rs[i].key != k
      invariant i <= |rs|
      invariant forall j :: 0 <= j < i ==> rs[j].key != k
    {
      i := i + 1;
    }
  }

  // Moves the records with other keys to the front.  What stands behind `kept` is left
  // over from the moves.
  method RemoveIf<K(==), V>(rs: seq<Record<K, V>>, k: K) returns (out: seq<Record<K, V>>, kept: nat)
    requires Unique(rs)
    ensures |out| == |rs|
    ensures Search(rs, k) < 0 ==> kept == |rs| && out == rs
    ensures Search(rs, k) >= 0 ==> kept == |rs| - 1 && out[..kept] == rs[..Search(rs, k)] + rs[Search(rs, k) + 1..]
  {
    var first := FindIf(rs, k);
    out, kept := rs, first;
    if first < |rs| {
      var i := first + 1;
      while i < |rs|
        invariant first + 1 <= i <= |rs| == |out| && kept == i - 1
        invariant forall j :: 0 <= j < kept ==> out[j] == rs[if j < first then j else j + 1]
        invariant forall j :: i <= j < |rs| ==> out[j] == rs[j]
      {
        if out[i].key != k {
          out, kept := out[kept := out[i]], kept + 1;
        }
        i := i + 1;
      }
      assert out[..kept] == rs[..first] + rs[first + 1..];
    }
  }

  lemma HalfStep<K, V>(hash: K -> nat, rs: seq<Record<K, V>>, n: nat, d: nat, out: seq<Record<K, V>>, set_: bool)
    requires n < |rs|
    ensures out + Half(hash, rs[n..], d, set_) ==
      (if Bit(hash(rs[n].key), d) == set_ then out + [rs[n]] else out) + Half(hash, rs[n + 1..], d, set_)
  {
    assert rs[n..][1..] == rs[n + 1..];
  }

  // Deals the records out by bit `d` of their hash.
  method Redistribute<K, V>(hash: K -> nat, rs: seq<Record<K, V>>, d: nat) returns (low: seq<Record<K, V>>, high: seq<Record<K, V>>)
    ensures low == Half(hash, rs, d, false) && high == Half(hash, rs, d, true)
  {
    low, high := [], [];
    var n := 0;
    assert rs[0..] == rs;
    while n < |rs|
      invariant n <= |rs|
      invariant low + Half(hash, rs[n..], d, false) == Half(hash, rs, d, false)
      invariant high + Half(hash, rs[n..], d, true) == Half(hash, rs, d, true)
    {
      BitIsDiv(hash(rs[n].key), d);
      HalfStep(hash, rs, n, d, low, false);
      HalfStep(hash, rs, n, d, high, true);
      if hash(rs[n].key) / Pow2(d) % 2 == 1 {
        high := high + [rs[n]];
      } else {
        low := low + [rs[n]];
      }
      n := n + 1;
    }
  }

  // Names the new bucket in the slots with the low bits `local` and bit `d` set, the
  // old one in those with bit `d` clear.
  method Relink(dir: seq<nat>, d: nat, local: nat, bucket: nat, newBucket: nat) returns (out: seq<nat>)
    ensures |out| == |dir|
    ensures forall i :: 0 <= i < |dir| ==>
      out[i] == if Low(i, d) == local then (if Bit(i, d) then newBucket else bucket) else dir[i]
  {
    out := dir;
    var i := 0;
    while i < |dir|
      invariant i <= |dir| == |out|
      invariant forall j :: 0 <= j < i ==>
        out[j] == if Low(j, d) == local then (if Bit(j, d) then newBucket else bucket) else dir[j]
      invariant forall j :: i <= j < |dir| ==> out[j] == dir[j]
    {
      LowIsMod(i, d);
      BitIsDiv(i, d);
      if i % Pow2(d) == local {
        out := out[i := if i / Pow2(d) % 2 == 1 then newBucket else bucket];
      }
      i := i + 1;
    }
  }

  // In a doubled directory one slot agrees with `b` and has the new bit set.
  lemma NewSlot(i: nat, b: nat, d: nat)
    requires b < Pow2(d) && i < Pow2(d + 1)
    ensures Low(i, d) == b && Bit(i, d) <==> i == Pow2(d) + b
  {
    LowSucc(i, d);
    LowId(i, d + 1);
    if i == Pow2(d) + b {
      LowAdd(b, d, d);
      LowId(b, d);
    }
  }

  class ExtendibleHash<K(==, !new), V> {
    const hash: K -> nat
    const size: nat
    var globalDepth: nat
    var numBuckets: nat
    var dir: seq<nat>
    var buckets: seq<Bucket<K, V>>
    // Hashes fit in so many bits.
    ghost const width: nat

    ghost function T(): Table<K, V>
      reads this
    {
      Table(size, globalDepth, dir, buckets)
    }

    ghost predicate Valid()
      reads this
    {
      && Ok(hash, T())
      && numBuckets == Pow2(globalDepth)
      && forall k :: hash(k) < Pow2(width)
    }

    ghost function Says(k: K): Option<V>
      reads this
    {
      Get(hash, T(), k)
    }

    constructor (hash: K -> nat, size: nat, ghost width: nat)
      requires forall k :: hash(k) < Pow2(width)
      ensures Valid() && globalDepth == 0 && this.hash == hash && this.size == size && this.width == width
      ensures forall k :: Says(k) == None
    {
      this.hash, this.size, this.width := hash, size, width;
      globalDepth, numBuckets, dir, buckets := 0, 1, [0], [Bucket(0, [])];
      new;
      assert SlotOk(hash, T(), 0) && PairOk(T(), 0, 0);
    }

    method BucketId(k: K) returns (b: nat)
      requires Valid()
      ensures b == SlotOf(hash, T(), k) && b < |dir| && dir[b] < |buckets|
      ensures Low(hash(k), At(T(), b).depth) == Low(b, At(T(), b).depth)
    {
      LowIsMod(hash(k), globalDepth);
      b := hash(k) % Pow2(globalDepth);
      assert SlotOk(hash, T(), b);
      LowLow(hash(k), At(T(), b).depth, globalDepth);
    }

    method Find(k: K) returns (r: Option<V>)
      requires Valid()
      ensures r == Says(k)
    {
      var b := BucketId(k);
      var rs := buckets[dir[b]].records;
      var i := FindIf(rs, k);
      r := if i != |rs| then Some(rs[i].value) else None;
    }

    method Remove(k: K) returns (found: bool)
      requires Valid()
      modifies this
      ensures Valid() && globalDepth == old(globalDepth)
      ensures found == (old(Says(k)) != None)
      ensures forall x :: Says(x) == if x == k then None else old(Says(x))
    {
      var b := BucketId(k);
      var rs := buckets[dir[b]].records;
      assert SlotOk(hash, T(), b);
      var out, kept := RemoveIf(rs, k);
      found := kept != |rs|;
      if found {
        RemoveSays(hash, T(), b, k);
        buckets := buckets[dir[b] := buckets[dir[b]].(records := out[..|out| - 1])];
      }
    }

    method Insert(k: K, v: V)
      requires Valid() && Settles(hash, T(), k)
      modifies this
      ensures Valid()
      ensures globalDepth <= if old(globalDepth) > width then old(globalDepth) else width
      ensures forall x :: Says(x) == if x == k then Some(v) else old(Says(x))
      ensures DeeperBy(hash, old(T()), T(), k, Overflows(hash, old(T()), k))
    {
      var done := false;
      ghost var full := false;
      DeeperItself(hash, T(), k);
      while !done
        invariant Valid()
        invariant DeeperBy(hash, old(T()), T(), k, full)
        invariant full ==> Overflows(hash, old(T()), k)
        invariant !full ==> if done then !Overflows(hash, old(T()), k) else T() == old(T())
        invariant globalDepth <= if old(globalDepth) > width then old(globalDepth) else width
        invariant !done ==> Settles(hash, T(), k) && forall x :: Says(x) == old(Says(x))
        invariant done ==> forall x :: Says(x) == if x == k then Some(v) else old(Says(x))
        decreases !done, width - globalDepth
      {
        ghost var t := T();
        done := InsertOnce(k, v);
        DeeperStep(hash, old(T()), t, T(), k, full, Overflows(hash, t, k));
        full := full || Overflows(hash, t, k);
      }
    }

    // One pass of the insert loop.
    method InsertOnce(k: K, v: V) returns (done: bool)
      requires Valid() && Settles(hash, T(), k)
      modifies this
      ensures Valid()
      ensures done ==> globalDepth == old(globalDepth) && forall x :: Says(x) == if x == k then Some(v) else old(Says(x))
      ensures !done ==> Settles(hash, T(), k) && globalDepth == old(globalDepth) + 1 <= width && forall x :: Says(x) == old(Says(x))
      ensures !done <==> MustGrow(hash, old(T()), k)
      ensures Deepens(hash, old(T()), T(), k, Overflows(hash, old(T()), k))
    {
      ghost var t := T();
      var b := BucketId(k);
      var bucket := buckets[dir[b]];
      var i := FindIf(bucket.records, k);
      if i != |bucket.records| {
        PutRecord(b, k, v, bucket.records[i := Record(k, v)]);
        return true;
      }
      if |bucket.records| < size {
        PutRecord(b, k, v, bucket.records + [Record(k, v)]);
        return true;
      }
      if globalDepth > bucket.depth {
        SplitSays(hash, t, b, k, v);
        SplitDeepens(hash, t, k, bucket.records + [Record(k, v)]);
        SplitBucket(b, bucket.records + [Record(k, v)]);
        return true;
      }
      GrowthBound(hash, T(), k, width);
      GrownKeeps(hash, T(), k);
      GrownSettles(hash, T(), k);
      GrownDeepens(hash, t, k);
      Expand(k, b);
      return false;
    }

    method PutRecord(b: nat, k: K, v: V, rs: seq<Record<K, V>>)
      requires Valid() && b == SlotOf(hash, T(), k) && b < |dir| && dir[b] < |buckets| && Puts(T(), b, k, v, rs)
      modifies this`buckets
      ensures Valid() && forall x :: Says(x) == if x == k then Some(v) else old(Says(x))
      ensures Deepens(hash, old(T()), T(), k, false)
    {
      ghost var t := T();
      PutDepths(hash, t, k, rs);
      PutSays(hash, t, b, k, v, rs);
      buckets := buckets[dir[b] := buckets[dir[b]].(records := rs)];
      assert T() == SetRecords(t, b, rs);
    }

    method SplitBucket(b: nat, rs: seq<Record<K, V>>)
      requires Valid() && b < |dir| && dir[b] < |buckets| && At(T(), b).depth < globalDepth
      modifies this`dir, this`buckets
      ensures T() == Split(hash, old(T()), b, rs)
    {
      ghost var t := T();
      var d, name := buckets[dir[b]].depth, dir[b];
      var low, high := Redistribute(hash, rs, d);
      LowIsMod(b, d);
      dir := Relink(dir, d, b % Pow2(d), name, |buckets|);
      buckets := buckets[name := Bucket(d + 1, low)] + [Bucket(d + 1, high)];
      forall i | 0 <= i < |dir|
        ensures dir[i] == Split(hash, t, b, rs).dir[i]
      {
        SplitAt(hash, t, b, rs, i);
      }
      assert dir == Split(hash, t, b, rs).dir;
    }

    // Leaves a bucket the records with the next bit clear and moves the others to a new one.
    method SplitRecords(name: nat)
      requires name < |buckets|
      modifies this`buckets
      ensures buckets == SplitAway(hash, old(buckets), name)
    {
      var d := buckets[name].depth;
      var low, high := Redistribute(hash, buckets[name].records, d);
      buckets := buckets[name := Bucket(d + 1, low)] + [Bucket(d + 1, high)];
    }

    // Doubles the directory, giving one new slot the upper half of the full bucket.
    method Expand(k: K, b: nat)
      requires Valid() && b == SlotOf(hash, T(), k) && MustGrow(hash, T(), k)
      modifies this
      ensures T() == Grown(hash, old(T()), b) && numBuckets == 2 * old(numBuckets)
    {
      ghost var t := T();
      GrowStart(hash, t, k);
      var half := numBuckets;
      numBuckets := numBuckets * 2;
      globalDepth := globalDepth + 1;
      var slots := FillNewSlots(half, b);
      dir := slots;
      GrownDir(hash, t, b, dir);
    }

    // The doubled directory: the new slots repeat the old ones, but for one.
    method FillNewSlots(half: nat, b: nat) returns (slots: seq<nat>)
      requires half == |dir| && numBuckets == 2 * half && b < half && dir[b] < |buckets|
      modifies this`buckets
      ensures |slots| == 2 * half && slots[..half] == dir
      ensures forall j :: half <= j < 2 * half ==> slots[j] == if j == half + b then |old(buckets)| else dir[j - half]
      ensures buckets == SplitAway(hash, old(buckets), dir[b])
    {
      slots := dir + seq(half, _ => 0);
      var i := half;
      while i < numBuckets
        modifies this`buckets
        invariant half <= i <= 2 * half == |slots|
        invariant forall j :: 0 <= j < half ==> slots[j] == dir[j]
        invariant forall j :: half <= j < i ==> slots[j] == if j == half + b then |old(buckets)| else dir[j - half]
        invariant buckets == if i <= half + b then old(buckets) else SplitAway(hash, old(buckets), dir[b])
      {
        if i != half + b {
          slots := slots[i := slots[i - half]];
        } else {
          SplitRecords(dir[b]);
          slots := slots[i := |buckets| - 1];
        }
        i := i + 1;
      }
    }
  }

  function SplitAway<K, V>(hash: K -> nat, buckets: seq<Bucket<K, V>>, name: nat): (out: seq<Bucket<K, V>>)
    requires name < |buckets|
    ensures |out| == |buckets| + 1
  {
    var d, rs := buckets[name].depth, buckets[name].records;
    buckets[name := Bucket(d + 1, Half(hash, rs, d, false))] + [Bucket(d + 1, Half(hash, rs, d, true))]
  }

  // The directory that the doubling loop builds.
  lemma GrownDir<K, V>(hash: K -> nat, t: Table<K, V>, b: nat, dir: seq<nat>)
    requires Ok(hash, t) && b < |t.dir| && t.dir[b] < |t.buckets| && At(t, b).depth == t.depth
    requires |dir| == 2 * |t.dir| && dir[..|t.dir|] == t.dir
    requires forall j :: |t.dir| <= j < |dir| ==> dir[j] == if j == |t.dir| + b then |t.buckets| else t.dir[j - |t.dir|]
    ensures Table(t.size, t.depth + 1, dir, SplitAway(hash, t.buckets, t.dir[b])) == Grown(hash, t, b)
  {
    LowId(b, t.depth);
    forall i | 0 <= i < |dir|
      ensures dir[i] == Grown(hash, t, b).dir[i]
    {
      NewSlot(i, b, t.depth);
      assert i < |t.dir| ==> dir[i] == dir[..|t.dir|][i];
    }
  }

  // Putting a record in its bucket, over the old one or at the end.
  ghost predicate Puts<K, V>(t: Table<K, V>, b: nat, k: K, v: V, rs': seq<Record<K, V>>)
    requires b < |t.dir| && t.dir[b] < |t.buckets|
  {
    var rs := At(t, b).records;
    if Search(rs, k) >= 0 then rs' == rs[Search(rs, k) := Record(k, v)]
    else |rs| < t.size && rs' == rs + [Record(k, v)]
  }

  lemma PutSays<K, V>(hash: K -> nat, t: Table<K, V>, b: nat, k: K, v: V, rs': seq<Record<K, V>>)
    requires Ok(hash, t) && b == SlotOf(hash, t, k) && b < |t.dir| && t.dir[b] < |t.buckets| && Puts(t, b, k, v, rs')
    ensures Ok(hash, SetRecords(t, b, rs'))
    ensures forall x :: Get(hash, SetRecords(t, b, rs'), x) == if x == k then Some(v) else Get(hash, t, x)
  {
    var rs, d := At(t, b).records, At(t, b).depth;
    assert SlotOk(hash, t, b);
    LowLow(hash(k), d, t.depth);
    AnswerPut(rs, k, v, k);
    SetRecordsKeeps(hash, t, b, rs');
    forall x
      ensures Get(hash, SetRecords(t, b, rs'), x) == if x == k then Some(v) else Get(hash, t, x)
    {
      SetRecordsGet(hash, t, b, rs', x);
      AnswerPut(rs, k, v, x);
      if Low(hash(x), d) == Low(b, d) { BucketGet(hash, t, b, x); }
    }
  }

  // Splitting a full bucket with the new record among those dealt out.
  lemma SplitSays<K, V>(hash: K -> nat, t: Table<K, V>, b: nat, k: K, v: V)
    requires Ok(hash, t) && b == SlotOf(hash, t, k) && b < |t.dir| && t.dir[b] < |t.buckets|
    requires Search(At(t, b).records, k) < 0 && At(t, b).depth < t.depth
    ensures var t' := Split(hash, t, b, At(t, b).records + [Record(k, v)]);
      Ok(hash, t') && forall x :: Get(hash, t', x) == if x == k then Some(v) else Get(hash, t, x)
  {
    var rs, d := At(t, b).records, At(t, b).depth;
    var rs' := rs + [Record(k, v)];
    assert SlotOk(hash, t, b);
    LowLow(hash(k), d, t.depth);
    AnswerPut(rs, k, v, k);
    SplitKeeps(hash, t, b, rs');
    forall x
      ensures Get(hash, Split(hash, t, b, rs'), x) == if x == k then Some(v) else Get(hash, t, x)
    {
      SplitGet(hash, t, b, rs', x);
      AnswerPut(rs, k, v, x);
      if Low(hash(x), d) == Low(b, d) { BucketGet(hash, t, b, x); }
    }
  }

  lemma RemoveSays<K, V>(hash: K -> nat, t: Table<K, V>, b: nat, k: K)
    requires Ok(hash, t) && b == SlotOf(hash, t, k) && b < |t.dir| && t.dir[b] < |t.buckets|
    requires Search(At(t, b).records, k) >= 0
    ensures var rs := At(t, b).records;
      var t' := SetRecords(t, b, rs[..Search(rs, k)] + rs[Search(rs, k) + 1..]);
      Ok(hash, t') && forall x :: Get(hash, t', x) == if x == k then None else Get(hash, t, x)
  {
    var rs, d := At(t, b).records, At(t, b).depth;
    var i := Search(rs, k);
    var rs' := rs[..i] + rs[i + 1..];
    assert SlotOk(hash, t, b);
    LowLow(hash(k), d, t.depth);
    AnswerDrop(rs, i, k);
    assert forall j :: 0 <= j < |rs'| ==> rs'[j] == rs[if j < i then j else j + 1];
    SetRecordsKeeps(hash, t, b, rs');
    forall x
      ensures Get(hash, SetRecords(t, b, rs'), x) == if x == k then None else Get(hash, t, x)
    {
      SetRecordsGet(hash, t, b, rs', x);
      AnswerDrop(rs, i, x);
      if Low(hash(x), d) == Low(b, d) { BucketGet(hash, t, b, x); }
    }
  }
}
