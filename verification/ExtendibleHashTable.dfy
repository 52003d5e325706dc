/**
 The extendible hash table as a value: a directory of 2^depth slots naming buckets,
 several slots naming the same bucket when its local depth is smaller.  Doubling the
 directory and splitting a bucket keep the table consistent and lose no record.
 */
module ExtendibleHashTable {
  import opened LowBits
  import opened Wrappers

  datatype Record<K, V> = Record(key: K, value: V)
  datatype Bucket<K, V> = Bucket(depth: nat, records: seq<Record<K, V>>)

  // `size` is the capacity of a bucket; slot `i` names bucket `dir[i]`.
  datatype Table<K, V> = Table(size: nat, depth: nat, dir: seq<nat>, buckets: seq<Bucket<K, V>>)

  // ----- One bucket -----

  function Search<K(==), V>(rs: seq<Record<K, V>>, k: K): (i: int)
    ensures -1 <= i < |rs|
    ensures i >= 0 ==> rs[i].key == k
    ensures forall j :: 0 <= j < (if i < 0 then |rs| else i) ==> rs[j].key != k
  {
    if rs == [] then -1
    else if rs[0].key == k then 0
    else
      var r := Search(rs[1..], k);
      assert forall j :: 1 <= j < |rs| ==> rs[j] == rs[1..][j - 1];
      if r < 0 then -1 else r + 1
  }

  // What a list of records says about a key.
  function Answer<K(==), V>(rs: seq<Record<K, V>>, k: K): Option<V> {
    if Search(rs, k) < 0 then None else Some(rs[Search(rs, k)].value)
  }

  ghost predicate Unique<K, V>(rs: seq<Record<K, V>>) {
    forall i, j :: 0 <= i < j < |rs| ==> rs[i].key != rs[j].key
  }

  // The records whose hash has bit `d` set, or clear.
  function Half<K, V>(hash: K -> nat, rs: seq<Record<K, V>>, d: nat, set_: bool): seq<Record<K, V>> {
    if rs == [] then []
    else (if Bit(hash(rs[0].key), d) == set_ then [rs[0]] else []) + Half(hash, rs[1..], d, set_)
  }

  lemma {:induction false} HalfMember<K, V>(hash: K -> nat, rs: seq<Record<K, V>>, d: nat, set_: bool, r: Record<K, V>)
    ensures r in Half(hash, rs, d, set_) <==> r in rs && Bit(hash(r.key), d) == set_
  {
    if rs != [] {
      HalfMember(hash, rs[1..], d, set_, r);
      assert r in rs <==> r == rs[0] || r in rs[1..];
    }
  }

  lemma {:induction false} HalfSizes<K, V>(hash: K -> nat, rs: seq<Record<K, V>>, d: nat)
    ensures |Half(hash, rs, d, true)| + |Half(hash, rs, d, false)| == |rs|
  {
    if rs != [] {
      HalfSizes(hash, rs[1..], d);
    }
  }

  lemma {:induction false} HalfUnique<K, V>(hash: K -> nat, rs: seq<Record<K, V>>, d: nat, set_: bool)
    requires Unique(rs)
    ensures Unique(Half(hash, rs, d, set_))
  {
    if rs != [] {
      HalfUnique(hash, rs[1..], d, set_);
      assert forall j :: 1 <= j < |rs| ==> rs[j] == rs[1..][j - 1];
      var rest := Half(hash, rs[1..], d, set_);
      forall j | 0 <= j < |rest|
        ensures rest[j].key != rs[0].key
      {
        HalfMember(hash, rs[1..], d, set_, rest[j]);
      }
    }
  }

  // ----- What every reachable table satisfies -----

  function At<K, V>(t: Table<K, V>, i: nat): Bucket<K, V>
    requires i < |t.dir| && t.dir[i] < |t.buckets|
  {
    t.buckets[t.dir[i]]
  }

  // Slot `i` names a bucket whose records, distinct and not too many, have the low bits
  // of `i` for their hash.
  ghost predicate SlotOk<K, V>(hash: K -> nat, t: Table<K, V>, i: nat)
    requires i < |t.dir|
  {
    && t.dir[i] < |t.buckets|
    && var b := At(t, i);
      && b.depth <= t.depth
      && Unique(b.records)
      && (forall n :: 0 <= n < |b.records| ==> Low(hash(b.records[n].key), b.depth) == Low(i, b.depth))
      && |b.records| <= t.size + b.depth
  }

  // Slots share a bucket exactly when they agree on as many low bits as it is deep.
  ghost predicate PairOk<K, V>(t: Table<K, V>, i: nat, j: nat)
    requires i < |t.dir| && j < |t.dir|
  {
    && t.dir[i] < |t.buckets|
    && (t.dir[i] == t.dir[j] <==> Low(i, At(t, i).depth) == Low(j, At(t, i).depth))
  }

  ghost predicate Ok<K, V>(hash: K -> nat, t: Table<K, V>) {
    && |t.dir| == Pow2(t.depth)
    && (forall i {:trigger SlotOk(hash, t, i)} :: 0 <= i < |t.dir| ==> SlotOk(hash, t, i))
    && (forall i, j {:trigger PairOk(t, i, j)} :: 0 <= i < |t.dir| && 0 <= j < |t.dir| ==> PairOk(t, i, j))
  }

  function SlotOf<K, V>(hash: K -> nat, t: Table<K, V>, k: K): nat {
    Low(hash(k), t.depth)
  }

  // What the table says about a key.
  function Get<K(==), V>(hash: K -> nat, t: Table<K, V>, k: K): Option<V> {
    var i := SlotOf(hash, t, k);
    if i < |t.dir| && t.dir[i] < |t.buckets| then Answer(At(t, i).records, k) else None
  }

  // ----- Doubling the directory -----

  function Doubled<K, V>(t: Table<K, V>): Table<K, V> {
    t.(depth := t.depth + 1, dir := t.dir + t.dir)
  }

  // Slot `i` of the doubled directory is slot `i` modulo the old length.
  lemma DoubledSlot<K, V>(hash: K -> nat, t: Table<K, V>, i: nat)
    requires Ok(hash, t) && i < |Doubled(t).dir|
    ensures Low(i, t.depth) < |t.dir| && Doubled(t).dir[i] == t.dir[Low(i, t.depth)]
  {
    var n := Pow2(t.depth);
    if i < n {
      LowId(i, t.depth);
    } else {
      LowAdd(i - n, t.depth, t.depth);
      LowId(i - n, t.depth);
    }
  }

  lemma DoubleKeeps<K, V>(hash: K -> nat, t: Table<K, V>)
    requires Ok(hash, t)
    ensures Ok(hash, Doubled(t))
    ensures forall k :: Get(hash, Doubled(t), k) == Get(hash, t, k)
  {
    var t' := Doubled(t);
    forall i | 0 <= i < |t'.dir|
      ensures SlotOk(hash, t', i)
    {
      DoubledSlot(hash, t, i);
      assert SlotOk(hash, t, Low(i, t.depth));
      LowLow(i, At(t, Low(i, t.depth)).depth, t.depth);
    }
    forall i, j | 0 <= i < |t'.dir| && 0 <= j < |t'.dir|
      ensures PairOk(t', i, j)
    {
      DoubledSlot(hash, t, i);
      DoubledSlot(hash, t, j);
      var i0, j0 := Low(i, t.depth), Low(j, t.depth);
      assert SlotOk(hash, t, i0);
      assert PairOk(t, i0, j0);
      LowLow(i, At(t, i0).depth, t.depth);
      LowLow(j, At(t, i0).depth, t.depth);
    }
    forall k
      ensures Get(hash, t', k) == Get(hash, t, k)
    {
      DoubledSlot(hash, t, SlotOf(hash, t', k));
      LowLow(hash(k), t.depth, t.depth + 1);
    }
  }

  // ----- Splitting a bucket -----

  // The bucket of slot `b` gets one level deeper, holding `rs`; the records whose next
  // bit is set go to a new bucket, and so do the slots.
  function Split<K, V>(hash: K -> nat, t: Table<K, V>, b: nat, rs: seq<Record<K, V>>): (t': Table<K, V>)
    requires b < |t.dir| && t.dir[b] < |t.buckets|
    ensures |t'.dir| == |t.dir|
    ensures forall i :: 0 <= i < |t.dir| ==>
      t'.dir[i] == if Low(i, At(t, b).depth) == Low(b, At(t, b).depth) && Bit(i, At(t, b).depth) then |t.buckets| else t.dir[i]
  {
    var d, n := At(t, b).depth, |t.buckets|;
    t.(dir := seq(|t.dir|, i requires 0 <= i < |t.dir| => if Low(i, d) == Low(b, d) && Bit(i, d) then n else t.dir[i]),
       buckets := t.buckets[t.dir[b] := Bucket(d + 1, Half(hash, rs, d, false))] + [Bucket(d + 1, Half(hash, rs, d, true))])
  }

  // The records handed to a split: those of the bucket, perhaps with a new one that
  // belongs there.
  ghost predicate Refill<K, V>(hash: K -> nat, t: Table<K, V>, b: nat, rs: seq<Record<K, V>>)
    requires b < |t.dir| && t.dir[b] < |t.buckets|
  {
    && Unique(rs)
    && |rs| <= t.size + At(t, b).depth + 1
    && forall n :: 0 <= n < |rs| ==> Low(hash(rs[n].key), At(t, b).depth) == Low(b, At(t, b).depth)
  }

  // Slot `i` after the split: untouched, or one of the two halves.
  lemma SplitAt<K, V>(hash: K -> nat, t: Table<K, V>, b: nat, rs: seq<Record<K, V>>, i: nat)
    requires Ok(hash, t) && b < |t.dir| && i < |t.dir|
    ensures t.dir[b] < |t.buckets| && t.dir[i] < |t.buckets|
    ensures var t', d := Split(hash, t, b, rs), At(t, b).depth;
      && t'.dir[i] < |t'.buckets|
      && if Low(i, d) == Low(b, d) then At(t', i) == Bucket(d + 1, Half(hash, rs, d, Bit(i, d))) && t.dir[i] == t.dir[b]
         else At(t', i) == At(t, i) && t.dir[i] != t.dir[b] && t'.dir[i] == t.dir[i]
  {
    assert SlotOk(hash, t, b) && SlotOk(hash, t, i);
    assert PairOk(t, b, i);
  }

  lemma HalfOk<K, V>(hash: K -> nat, t: Table<K, V>, b: nat, rs: seq<Record<K, V>>, i: nat)
    requires b < |t.dir| && t.dir[b] < |t.buckets| && Refill(hash, t, b, rs)
    requires Low(i, At(t, b).depth) == Low(b, At(t, b).depth)
    ensures var d := At(t, b).depth;
      var half := Half(hash, rs, d, Bit(i, d));
      && Unique(half) && |half| <= t.size + d + 1
      && forall n :: 0 <= n < |half| ==> Low(hash(half[n].key), d + 1) == Low(i, d + 1)
  {
    var d := At(t, b).depth;
    var half := Half(hash, rs, d, Bit(i, d));
    HalfSizes(hash, rs, d);
    HalfUnique(hash, rs, d, Bit(i, d));
    forall n | 0 <= n < |half|
      ensures Low(hash(half[n].key), d + 1) == Low(i, d + 1)
    {
      HalfMember(hash, rs, d, Bit(i, d), half[n]);
      LowSuccSame(hash(half[n].key), i, d);
    }
  }

  lemma SplitSlot<K, V>(hash: K -> nat, t: Table<K, V>, b: nat, rs: seq<Record<K, V>>, i: nat)
    requires Ok(hash, t) && b < |t.dir| && i < |t.dir| && t.dir[b] < |t.buckets| && Refill(hash, t, b, rs)
    requires At(t, b).depth < t.depth
    ensures SlotOk(hash, Split(hash, t, b, rs), i)
  {
    SplitAt(hash, t, b, rs, i);
    var t', d := Split(hash, t, b, rs), At(t, b).depth;
    assert SlotOk(hash, t, i);
    if Low(i, d) == Low(b, d) {
      HalfOk(hash, t, b, rs, i);
    }
  }

  lemma SplitPair<K, V>(hash: K -> nat, t: Table<K, V>, b: nat, rs: seq<Record<K, V>>, i: nat, j: nat)
    requires Ok(hash, t) && b < |t.dir| && i < |t.dir| && j < |t.dir| && t.dir[b] < |t.buckets|
    ensures PairOk(Split(hash, t, b, rs), i, j)
  {
    SplitAt(hash, t, b, rs, i);
    SplitAt(hash, t, b, rs, j);
    var d := At(t, b).depth;
    assert PairOk(t, i, j);
    LowSuccSame(i, j, d);
  }

  /** Splitting a bucket below the table's depth keeps the table consistent. */
  lemma SplitKeeps<K, V>(hash: K -> nat, t: Table<K, V>, b: nat, rs: seq<Record<K, V>>)
    requires Ok(hash, t) && b < |t.dir| && t.dir[b] < |t.buckets| && Refill(hash, t, b, rs)
    requires At(t, b).depth < t.depth
    ensures Ok(hash, Split(hash, t, b, rs))
  {
    var t' := Split(hash, t, b, rs);
    forall i | 0 <= i < |t'.dir|
      ensures SlotOk(hash, t', i)
    {
      SplitSlot(hash, t, b, rs, i);
    }
    forall i, j | 0 <= i < |t'.dir| && 0 <= j < |t'.dir|
      ensures PairOk(t', i, j)
    {
      SplitPair(hash, t, b, rs, i, j);
    }
  }

  // A list with distinct keys answers by membership.
  lemma SearchMember<K, V>(rs: seq<Record<K, V>>, k: K, v: V)
    requires Unique(rs)
    ensures Record(k, v) in rs <==> Search(rs, k) >= 0 && rs[Search(rs, k)].value == v
  {
    if Record(k, v) in rs {
      var i :| 0 <= i < |rs| && rs[i] == Record(k, v);
    }
  }

  // Halving a bucket keeps what it says about the keys on each side.
  lemma HalfSays<K, V>(hash: K -> nat, rs: seq<Record<K, V>>, d: nat, k: K)
    requires Unique(rs)
    ensures Answer(Half(hash, rs, d, Bit(hash(k), d)), k) == Answer(rs, k)
  {
    var set_ := Bit(hash(k), d);
    var h := Half(hash, rs, d, set_);
    HalfUnique(hash, rs, d, set_);
    if Search(rs, k) >= 0 {
      var r := rs[Search(rs, k)];
      HalfMember(hash, rs, d, set_, r);
      SearchMember(h, k, r.value);
    }
    if Search(h, k) >= 0 {
      HalfMember(hash, rs, d, set_, h[Search(h, k)]);
    }
  }

  /** After a split the table says of each key what the new records say of the keys of
      that bucket, and what it said before of all others. */
  lemma SplitGet<K, V>(hash: K -> nat, t: Table<K, V>, b: nat, rs: seq<Record<K, V>>, k: K)
    requires Ok(hash, t) && b < |t.dir| && t.dir[b] < |t.buckets| && Refill(hash, t, b, rs)
    requires At(t, b).depth < t.depth
    ensures var d := At(t, b).depth;
      if Low(hash(k), d) == Low(b, d) then Get(hash, Split(hash, t, b, rs), k) == Answer(rs, k)
      else Get(hash, Split(hash, t, b, rs), k) == Get(hash, t, k)
  {
    var d := At(t, b).depth;
    if Low(hash(k), d) == Low(b, d) {
      SplitBucket(hash, t, b, rs, k);
      HalfSays(hash, rs, d, k);
    } else {
      SplitAt(hash, t, b, rs, SlotOf(hash, t, k));
      LowLow(hash(k), d, t.depth);
    }
  }

  // The bucket of a key that was in the bucket being split.
  lemma SplitBucket<K, V>(hash: K -> nat, t: Table<K, V>, b: nat, rs: seq<Record<K, V>>, k: K)
    requires Ok(hash, t) && b < |t.dir| && t.dir[b] < |t.buckets|
    requires At(t, b).depth < t.depth && Low(hash(k), At(t, b).depth) == Low(b, At(t, b).depth)
    ensures var t', d, i := Split(hash, t, b, rs), At(t, b).depth, SlotOf(hash, t, k);
      && i < |t'.dir| && t'.dir[i] < |t'.buckets|
      && At(t', i) == Bucket(d + 1, Half(hash, rs, d, Bit(hash(k), d)))
  {
    var d, i := At(t, b).depth, SlotOf(hash, t, k);
    SplitAt(hash, t, b, rs, i);
    LowLow(hash(k), d, t.depth);
    LowLow(hash(k), d + 1, t.depth);
    LowSuccSame(i, hash(k), d);
  }

  // ----- Changing the records of one bucket -----

  function SetRecords<K, V>(t: Table<K, V>, b: nat, rs: seq<Record<K, V>>): Table<K, V>
    requires b < |t.dir| && t.dir[b] < |t.buckets|
  {
    t.(buckets := t.buckets[t.dir[b] := At(t, b).(records := rs)])
  }

  lemma SetRecordsKeeps<K, V>(hash: K -> nat, t: Table<K, V>, b: nat, rs: seq<Record<K, V>>)
    requires Ok(hash, t) && b < |t.dir| && t.dir[b] < |t.buckets| && Refill(hash, t, b, rs)
    requires |rs| <= t.size + At(t, b).depth
    ensures Ok(hash, SetRecords(t, b, rs))
  {
    var t' := SetRecords(t, b, rs);
    forall i | 0 <= i < |t'.dir|
      ensures SlotOk(hash, t', i)
    {
      assert SlotOk(hash, t, i);
      assert PairOk(t, b, i);
    }
    forall i, j | 0 <= i < |t'.dir| && 0 <= j < |t'.dir|
      ensures PairOk(t', i, j)
    {
      assert SlotOk(hash, t, i);
      assert PairOk(t, i, j);
    }
  }

  lemma SetRecordsGet<K, V>(hash: K -> nat, t: Table<K, V>, b: nat, rs: seq<Record<K, V>>, k: K)
    requires Ok(hash, t) && b < |t.dir| && t.dir[b] < |t.buckets|
    ensures var d := At(t, b).depth;
      if Low(hash(k), d) == Low(b, d) then Get(hash, SetRecords(t, b, rs), k) == Answer(rs, k)
      else Get(hash, SetRecords(t, b, rs), k) == Get(hash, t, k)
  {
    var i := SlotOf(hash, t, k);
    assert SlotOk(hash, t, i) && SlotOk(hash, t, b);
    assert PairOk(t, b, i);
    LowLow(hash(k), At(t, b).depth, t.depth);
  }

  // The bucket of a key, and what it says about the keys that belong to it.
  lemma BucketGet<K, V>(hash: K -> nat, t: Table<K, V>, b: nat, k: K)
    requires Ok(hash, t) && b < |t.dir| && t.dir[b] < |t.buckets|
    requires Low(hash(k), At(t, b).depth) == Low(b, At(t, b).depth)
    ensures Get(hash, t, k) == Answer(At(t, b).records, k)
  {
    SetRecordsGet(hash, t, b, At(t, b).records, k);
    assert SetRecords(t, b, At(t, b).records) == t;
  }

  // ----- What lists of records say after a change -----

  lemma AnswerPut<K, V>(rs: seq<Record<K, V>>, k: K, v: V, x: K)
    requires Unique(rs)
    ensures Search(rs, k) >= 0 ==>
      Unique(rs[Search(rs, k) := Record(k, v)]) && Answer(rs[Search(rs, k) := Record(k, v)], x) == if x == k then Some(v) else Answer(rs, x)
    ensures Search(rs, k) < 0 ==>
      Unique(rs + [Record(k, v)]) && Answer(rs + [Record(k, v)], x) == if x == k then Some(v) else Answer(rs, x)
  {
    var rs' := if Search(rs, k) >= 0 then rs[Search(rs, k) := Record(k, v)] else rs + [Record(k, v)];
    assert forall i :: 0 <= i < |rs| && i != Search(rs, k) ==> rs'[i] == rs[i];
    assert rs'[if Search(rs, k) >= 0 then Search(rs, k) else |rs|] == Record(k, v);
  }

  lemma AnswerDrop<K, V>(rs: seq<Record<K, V>>, i: nat, x: K)
    requires Unique(rs) && i < |rs|
    ensures Unique(rs[..i] + rs[i + 1..])
    ensures Answer(rs[..i] + rs[i + 1..], x) == if x == rs[i].key then None else Answer(rs, x)
  {
    var rs' := rs[..i] + rs[i + 1..];
    assert forall j :: 0 <= j < |rs'| ==> rs'[j] == rs[if j < i then j else j + 1];
    if Search(rs, x) >= 0 && x != rs[i].key {
      var j := Search(rs, x);
      assert rs'[if j < i then j else j - 1] == rs[j];
    }
  }

  // ----- When an insert ends -----

  function SameHash<K, V>(hash: K -> nat, rs: seq<Record<K, V>>, h: nat): nat {
    if rs == [] then 0 else (if hash(rs[0].key) == h then 1 else 0) + SameHash(hash, rs[1..], h)
  }

  lemma {:induction false} SameHashHalf<K, V>(hash: K -> nat, rs: seq<Record<K, V>>, h: nat, d: nat)
    ensures SameHash(hash, Half(hash, rs, d, Bit(h, d)), h) == SameHash(hash, rs, h)
  {
    if rs != [] {
      SameHashHalf(hash, rs[1..], h, d);
      var rest := Half(hash, rs[1..], d, Bit(h, d));
      assert ([rs[0]] + rest)[1..] == rest;
      assert [] + rest == rest;
    }
  }

  lemma {:induction false} AllSameHash<K, V>(hash: K -> nat, rs: seq<Record<K, V>>, h: nat)
    requires forall n :: 0 <= n < |rs| ==> hash(rs[n].key) == h
    ensures SameHash(hash, rs, h) == |rs|
  {
    if rs != [] {
      AllSameHash(hash, rs[1..], h);
    }
  }

  lemma {:induction false} SameHashBound<K, V>(hash: K -> nat, rs: seq<Record<K, V>>, h: nat)
    ensures SameHash(hash, rs, h) <= |rs|
  {
    if rs != [] {
      SameHashBound(hash, rs[1..], h);
    }
  }

  // An insert of `k` ends: the key is there, its bucket can be split in place, or fewer
  // than a bucketful of records share its whole hash.
  predicate Settles<K(==), V>(hash: K -> nat, t: Table<K, V>, k: K) {
    var b := SlotOf(hash, t, k);
    b < |t.dir| && t.dir[b] < |t.buckets| &&
    var bucket := At(t, b);
    Search(bucket.records, k) >= 0 || bucket.depth < t.depth || SameHash(hash, bucket.records, hash(k)) < t.size
  }

  // One pass of the insert loop that does not end it: double the directory, and split
  // the bucket of the key.
  function Grown<K, V>(hash: K -> nat, t: Table<K, V>, b: nat): Table<K, V>
    requires b < |t.dir| && t.dir[b] < |t.buckets|
  {
    Split(hash, Doubled(t), b, At(t, b).records)
  }

  predicate MustGrow<K(==), V>(hash: K -> nat, t: Table<K, V>, k: K) {
    var b := SlotOf(hash, t, k);
    b < |t.dir| && t.dir[b] < |t.buckets| &&
    var bucket := At(t, b);
    Search(bucket.records, k) < 0 && |bucket.records| >= t.size && t.depth <= bucket.depth
  }

  lemma GrownKeeps<K, V>(hash: K -> nat, t: Table<K, V>, k: K)
    requires Ok(hash, t) && MustGrow(hash, t, k)
    ensures var t' := Grown(hash, t, SlotOf(hash, t, k));
      && Ok(hash, t') && t'.depth == t.depth + 1 && t'.size == t.size
      && forall x :: Get(hash, t', x) == Get(hash, t, x)
  {
    var b := SlotOf(hash, t, k);
    var d, rs := t.depth, At(t, b).records;
    var t1 := Doubled(t);
    GrowStart(hash, t, k);
    SplitKeeps(hash, t1, b, rs);
    var t' := Split(hash, t1, b, rs);
    forall x
      ensures Get(hash, t', x) == Get(hash, t, x)
    {
      SplitGet(hash, t1, b, rs, x);
      if Low(hash(x), d) == Low(b, d) { BucketGet(hash, t1, b, x); }
    }
  }

  lemma GrowStart<K, V>(hash: K -> nat, t: Table<K, V>, k: K)
    requires Ok(hash, t) && MustGrow(hash, t, k)
    ensures var b, t1 := SlotOf(hash, t, k), Doubled(t);
      && b < |t1.dir| && t1.dir[b] < |t1.buckets| && At(t1, b) == At(t, b) && At(t, b).depth == t.depth
      && Low(hash(k), t.depth) == Low(b, t.depth)
      && Ok(hash, t1) && Refill(hash, t1, b, At(t, b).records)
      && forall x :: Get(hash, t1, x) == Get(hash, t, x)
  {
    assert SlotOk(hash, t, SlotOf(hash, t, k));
    DoubleKeeps(hash, t);
    LowLow(hash(k), t.depth, t.depth);
  }

  // Growing does not change how many records of the bucket share the hash of the key:
  // if too many do, the next pass must grow again.
  lemma GrownSettles<K, V>(hash: K -> nat, t: Table<K, V>, k: K)
    requires Ok(hash, t) && MustGrow(hash, t, k)
    ensures var t' := Grown(hash, t, SlotOf(hash, t, k));
      && (Settles(hash, t', k) <==> Settles(hash, t, k))
      && (!Settles(hash, t, k) ==> MustGrow(hash, t', k))
  {
    var b := SlotOf(hash, t, k);
    var d, rs := t.depth, At(t, b).records;
    GrowStart(hash, t, k);
    SplitBucket(hash, Doubled(t), b, rs, k);
    var half := Half(hash, rs, d, Bit(hash(k), d));
    HalfSays(hash, rs, d, k);
    SameHashHalf(hash, rs, hash(k), d);
    SameHashBound(hash, half, hash(k));
  }

  // The table after `n` passes that each had to grow.
  ghost function GrownTimes<K, V>(hash: K -> nat, t: Table<K, V>, k: K, n: nat): Table<K, V> {
    if n == 0 then t
    else
      var t' := GrownTimes(hash, t, k, n - 1);
      var b := SlotOf(hash, t', k);
      if b < |t'.dir| && t'.dir[b] < |t'.buckets| then Grown(hash, t', b) else t'
  }

  // A bucketful of records with the whole hash of the key forces growth.
  lemma UnsettledGrows<K, V>(hash: K -> nat, t: Table<K, V>, k: K)
    requires Ok(hash, t) && !Settles(hash, t, k)
    ensures MustGrow(hash, t, k)
  {
    assert SlotOk(hash, t, SlotOf(hash, t, k));
    SameHashBound(hash, At(t, SlotOf(hash, t, k)).records, hash(k));
  }

  /** An insert that does not settle never ends: after any number of passes it must grow
      once more. */
  lemma {:induction false} NeverEnds<K, V>(hash: K -> nat, t: Table<K, V>, k: K, n: nat)
    requires Ok(hash, t) && !Settles(hash, t, k)
    ensures var t' := GrownTimes(hash, t, k, n);
      Ok(hash, t') && MustGrow(hash, t', k) && !Settles(hash, t', k) && t'.depth == t.depth + n
  {
    if n == 0 {
      UnsettledGrows(hash, t, k);
    } else {
      NeverEnds(hash, t, k, n - 1);
      var t' := GrownTimes(hash, t, k, n - 1);
      GrownKeeps(hash, t', k);
      GrownSettles(hash, t', k);
    }
  }

  function OneHash(k: int): nat {
    0
  }

  // A bucket for one record, with one record.
  function FullTable(): Table<int, int> {
    Table(1, 0, [0], [Bucket(0, [Record(7, 0)])])
  }

  // Two keys with one hash and buckets of one record: the second insert never ends.
  lemma CollisionsNeverEnd(n: nat)
    ensures Ok(OneHash, FullTable()) && !Settles(OneHash, FullTable(), 8)
    ensures MustGrow(OneHash, GrownTimes(OneHash, FullTable(), 8, n), 8)
  {
    var t := FullTable();
    assert t.buckets[0].records[1..] == [];
    assert SlotOk(OneHash, t, 0) && PairOk(t, 0, 0);
    NeverEnds(OneHash, t, 8, n);
  }

  /** With buckets for no record at all, no insert into the empty table ends, whatever
      the hash. */
  lemma NoRoomNeverEnds<K, V>(hash: K -> nat, k: K, n: nat)
    ensures var t: Table<K, V> := Table(0, 0, [0], [Bucket(0, [])]);
      Ok(hash, t) && !Settles(hash, t, k) && MustGrow(hash, GrownTimes(hash, t, k, n), k)
  {
    var t: Table<K, V> := Table(0, 0, [0], [Bucket(0, [])]);
    assert SlotOk(hash, t, 0) && PairOk(t, 0, 0);
    NeverEnds(hash, t, k, n);
  }

  // Distinct keys with one hash are no more than the keys they are among.
  lemma {:induction false} SameHashAmong<K, V>(hash: K -> nat, rs: seq<Record<K, V>>, h: nat, ks: set<K>)
    requires Unique(rs) && forall n :: 0 <= n < |rs| && hash(rs[n].key) == h ==> rs[n].key in ks
    ensures SameHash(hash, rs, h) <= |ks|
  {
    if rs != [] {
      var rest := rs[1..];
      assert forall n :: 0 <= n < |rest| ==> rest[n] == rs[n + 1];
      if hash(rs[0].key) == h {
        SameHashAmong(hash, rest, h, ks - {rs[0].key});
      } else {
        SameHashAmong(hash, rest, h, ks);
      }
    }
  }

  /** If no more than a bucketful of keys, the new one among them, share one hash, its
      insert ends. */
  lemma FewKeysSettle<K, V>(hash: K -> nat, t: Table<K, V>, k: K, ks: set<K>)
    requires Ok(hash, t) && k in ks && |ks| <= t.size
    requires forall x :: hash(x) == hash(k) && Get(hash, t, x) != None ==> x in ks
    ensures Settles(hash, t, k)
  {
    var b := SlotOf(hash, t, k);
    assert SlotOk(hash, t, b);
    var rs := At(t, b).records;
    if Search(rs, k) < 0 {
      forall n | 0 <= n < |rs| && hash(rs[n].key) == hash(k)
        ensures rs[n].key in ks - {k}
      {
        assert SlotOf(hash, t, rs[n].key) == b;
        SearchMember(rs, rs[n].key, rs[n].value);
      }
      SameHashAmong(hash, rs, hash(k), ks - {k});
    }
  }

  // An insert that settles grows only while the table looks at fewer bits than the
  // hash of the key has.
  lemma GrowthBound<K, V>(hash: K -> nat, t: Table<K, V>, k: K, width: nat)
    requires Ok(hash, t) && MustGrow(hash, t, k) && Settles(hash, t, k)
    requires forall x :: hash(x) < Pow2(width)
    ensures t.depth < width
  {
    if t.depth >= width {
      var b := SlotOf(hash, t, k);
      var rs := At(t, b).records;
      assert SlotOk(hash, t, b);
      PowMono(width, t.depth);
      LowId(hash(k), t.depth);
      forall n | 0 <= n < |rs|
        ensures hash(rs[n].key) == hash(k)
      {
        LowId(hash(rs[n].key), t.depth);
      }
      AllSameHash(hash, rs, hash(k));
      assert false;
    }
  }
}
