/**
 Tuples: a fixed part with one place for each column of the schema, and behind it the
 contents of the VARCHAR columns, which the fixed part names by their offsets.
 */
module Tuples {
  import opened Bytes
  import opened Wrappers

  datatype TypeId = BOOLEAN | TINYINT | SMALLINT | INTEGER | BIGINT | DECIMAL | VARCHAR

  // `length` is what the column was declared with.
  datatype Column = Column(columnType: TypeId, length: nat)

  // A value as it lies in memory.
  datatype Value = Value(valueType: TypeId, bytes: seq<byte>)

  function TypeSize(t: TypeId): nat {
    match t
    case BOOLEAN => 1
    case TINYINT => 1
    case SMALLINT => 2
    case INTEGER => 4
    case BIGINT => 8
    case DECIMAL => 8
    case VARCHAR => 0
  }

  predicate Inlined(c: Column) {
    c.columnType != VARCHAR
  }

  function FixedLength(c: Column): nat {
    if Inlined(c) then c.length else 4
  }

  // ----- Layout -----

  // Where column `i` has its place.
  function Offset(cs: seq<Column>, i: nat): nat
    requires i <= |cs|
  {
    if i == 0 then 0 else Offset(cs, i - 1) + FixedLength(cs[i - 1])
  }

  function FixedTotal(cs: seq<Column>): nat {
    Offset(cs, |cs|)
  }

  // The room for the contents of the first `i` columns.
  function VarTotal(cs: seq<Column>, vs: seq<Value>, i: nat): nat
    requires i <= |cs| == |vs|
  {
    if i == 0 then 0 else VarTotal(cs, vs, i - 1) + if Inlined(cs[i - 1]) then 0 else |vs[i - 1].bytes| + 4
  }

  // Where the content of column `i` starts, if it is a VARCHAR.
  function VarOffset(cs: seq<Column>, vs: seq<Value>, i: nat): nat
    requires i <= |cs| == |vs|
  {
    FixedTotal(cs) + VarTotal(cs, vs, i)
  }

  function TupleSize(cs: seq<Column>, vs: seq<Value>): nat
    requires |cs| == |vs|
  {
    VarOffset(cs, vs, |cs|)
  }

  lemma {:induction false} OffsetMono(cs: seq<Column>, i: nat, j: nat)
    requires i <= j <= |cs|
    ensures Offset(cs, i) <= Offset(cs, j)
    decreases j
  {
    if i < j {
      OffsetMono(cs, i, j - 1);
    }
  }

  lemma {:induction false} VarMono(cs: seq<Column>, vs: seq<Value>, i: nat, j: nat)
    requires i <= j <= |cs| == |vs|
    ensures VarOffset(cs, vs, i) <= VarOffset(cs, vs, j)
    decreases j
  {
    if i < j {
      VarMono(cs, vs, i, j - 1);
    }
  }

  // The places of column `i` inside the tuple, and before those of a later column.
  lemma {:induction false} Places(cs: seq<Column>, vs: seq<Value>, i: nat, j: nat)
    requires i < j <= |cs| == |vs|
    ensures Offset(cs, i) + FixedLength(cs[i]) <= Offset(cs, j) <= FixedTotal(cs) <= VarOffset(cs, vs, i)
    ensures VarOffset(cs, vs, i) + (if Inlined(cs[i]) then 0 else |vs[i].bytes| + 4) <= VarOffset(cs, vs, j) <= TupleSize(cs, vs)
  {
    OffsetMono(cs, i + 1, j);
    OffsetMono(cs, j, |cs|);
    VarMono(cs, vs, 0, i);
    VarMono(cs, vs, i + 1, j);
    VarMono(cs, vs, j, |cs|);
  }

  // ----- Regions -----

  // Byte `x` belongs to column `i`: to its place, or to its content.
  ghost predicate Owns(cs: seq<Column>, vs: seq<Value>, i: nat, x: nat)
    requires i < |cs| == |vs|
  {
    || Offset(cs, i) <= x < Offset(cs, i) + FixedLength(cs[i])
    || (!Inlined(cs[i]) && VarOffset(cs, vs, i) <= x < VarOffset(cs, vs, i) + |vs[i].bytes| + 4)
  }

  lemma {:induction false} FindPlace(cs: seq<Column>, x: nat, n: nat) returns (i: nat)
    requires n <= |cs| && x < Offset(cs, n)
    ensures i < n && Offset(cs, i) <= x < Offset(cs, i) + FixedLength(cs[i])
    decreases n
  {
    if x < Offset(cs, n - 1) { i := FindPlace(cs, x, n - 1); } else { i := n - 1; }
  }

  lemma {:induction false} FindContent(cs: seq<Column>, vs: seq<Value>, x: nat, n: nat) returns (i: nat)
    requires n <= |cs| == |vs| && FixedTotal(cs) <= x < VarOffset(cs, vs, n)
    ensures i < n && !Inlined(cs[i]) && VarOffset(cs, vs, i) <= x < VarOffset(cs, vs, i) + |vs[i].bytes| + 4
    decreases n
  {
    if x < VarOffset(cs, vs, n - 1) { i := FindContent(cs, vs, x, n - 1); } else { i := n - 1; }
  }

  /** Every byte of the tuple belongs to exactly one column. */
  lemma {:induction false} RegionsFill(cs: seq<Column>, vs: seq<Value>, x: nat)
    requires |cs| == |vs| && x < TupleSize(cs, vs)
    ensures exists i :: 0 <= i < |cs| && Owns(cs, vs, i, x)
    ensures forall i, j :: 0 <= i < j < |cs| ==> !(Owns(cs, vs, i, x) && Owns(cs, vs, j, x))
  {
    var i: nat;
    if x < FixedTotal(cs) { i := FindPlace(cs, x, |cs|); } else { i := FindContent(cs, vs, x, |cs|); }
    assert Owns(cs, vs, i, x);
    forall i, j | 0 <= i < j < |cs|
      ensures !(Owns(cs, vs, i, x) && Owns(cs, vs, j, x))
    {
      Places(cs, vs, i, j);
      Places(cs, vs, j, |cs|);
    }
  }

  // ----- What the constructor stores -----

  // Values have the types of their columns.
  ghost predicate Typed(cs: seq<Column>, vs: seq<Value>) {
    && |cs| == |vs|
    && forall i :: 0 <= i < |cs| ==>
      vs[i].valueType == cs[i].columnType && (Inlined(cs[i]) ==> |vs[i].bytes| == TypeSize(cs[i].columnType))
  }

  // Sizes and offsets fit their 32-bit fields.
  ghost predicate Fits(cs: seq<Column>, vs: seq<Value>) {
    |cs| == |vs| && TupleSize(cs, vs) < 0x8000_0000
  }

  // Every inline column is as long as its type needs.
  predicate Wide(cs: seq<Column>) {
    forall i :: 0 <= i < |cs| && Inlined(cs[i]) ==> TypeSize(cs[i].columnType) <= cs[i].length
  }

  // What the constructor of a column insists on.
  predicate Declared(cs: seq<Column>) {
    forall i :: 0 <= i < |cs| && Inlined(cs[i]) ==> cs[i].length > 0
  }

  // No store leaves the buffer.
  ghost predicate InBounds(cs: seq<Column>, vs: seq<Value>) {
    && |cs| == |vs|
    && forall i {:trigger StoreInBounds(cs, vs, i)} :: 0 <= i < |cs| ==> StoreInBounds(cs, vs, i)
  }

  ghost predicate StoreInBounds(cs: seq<Column>, vs: seq<Value>, i: nat)
    requires i < |cs| == |vs|
  {
    Inlined(cs[i]) ==> Offset(cs, i) + |vs[i].bytes| <= TupleSize(cs, vs)
  }

  function Put(d: seq<byte>, k: nat, t: seq<byte>): (r: seq<byte>)
    ensures |r| == |d|
  {
    if k + |t| <= |d| then Write(d, k, t) else d
  }

  // The stores of column `i`: its bytes in place, or an offset in place and length and
  // bytes at that offset.
  ghost function StoredColumn(d: seq<byte>, cs: seq<Column>, vs: seq<Value>, i: nat): (r: seq<byte>)
    requires i < |cs| == |vs| && Fits(cs, vs)
    ensures |r| == |d|
  {
    if Inlined(cs[i]) then Put(d, Offset(cs, i), vs[i].bytes)
    else
      Places(cs, vs, i, |cs|);
      var v := VarOffset(cs, vs, i);
      Put(Put(Put(d, Offset(cs, i), Encode(v)), v, Encode(|vs[i].bytes|)), v + 4, vs[i].bytes)
  }

  ghost predicate StoreStep(bs: seq<seq<byte>>, cs: seq<Column>, vs: seq<Value>, i: nat)
    requires i < |cs| == |vs| && i + 1 < |bs| && Fits(cs, vs)
  {
    bs[i + 1] == StoredColumn(bs[i], cs, vs, i)
  }

  /** `bs` is the buffer before the first store, with any content, and after the stores of
      each of the first `n` columns. */
  ghost predicate Builds(bs: seq<seq<byte>>, cs: seq<Column>, vs: seq<Value>, n: nat)
    requires Fits(cs, vs)
  {
    && n <= |cs| && |bs| == n + 1
    && (forall i :: 0 <= i <= n ==> |bs[i]| == TupleSize(cs, vs))
    && (forall i {:trigger StoreStep(bs, cs, vs, i)} :: 0 <= i < n ==> StoreStep(bs, cs, vs, i))
  }

  // ----- Reading -----

  // The value of column `i`, unless reading it leaves the buffer.
  function GetValue(d: seq<byte>, cs: seq<Column>, i: nat): Option<Value>
    requires i < |cs|
  {
    var o, c := Offset(cs, i), cs[i];
    if Inlined(c) then
      if o + TypeSize(c.columnType) <= |d| then Some(Value(c.columnType, d[o..o + TypeSize(c.columnType)])) else None
    else if o + 4 <= |d| then
      var v := Int32At(d, o);
      if 0 <= v && v + 4 <= |d| then
        var n := Int32At(d, v);
        if 0 <= n && v + 4 + n <= |d| then Some(Value(VARCHAR, d[v + 4..v + 4 + n])) else None
      else None
    else None
  }

  // The constructor works for these values, and every column reads back from the buffer.
  ghost predicate ReadsBack(cs: seq<Column>, vs: seq<Value>, d: seq<byte>) {
    && InBounds(cs, vs)
    && forall i :: 0 <= i < |cs| ==> GetValue(d, cs, i) == Some(vs[i])
  }

  // It does so for all values that have the types of the columns, whatever the buffer
  // held before.
  ghost predicate RoundTrips(cs: seq<Column>) {
    forall vs, bs :: Typed(cs, vs) && Fits(cs, vs) && Builds(bs, cs, vs, |cs|) ==> ReadsBack(cs, vs, bs[|cs|])
  }

  // ----- Columns that are wide enough -----

  ghost predicate Stored(d: seq<byte>, cs: seq<Column>, vs: seq<Value>, i: nat)
    requires i < |cs| == |vs| && |d| == TupleSize(cs, vs)
    requires Inlined(cs[i]) ==> |vs[i].bytes| <= cs[i].length
  {
    Places(cs, vs, i, |cs|);
    if Inlined(cs[i]) then d[Offset(cs, i)..Offset(cs, i) + |vs[i].bytes|] == vs[i].bytes
    else VarcharAt(d, Offset(cs, i), VarOffset(cs, vs, i), vs[i].bytes)
  }

  // At `o` there is the offset `v`, and there the length and the bytes.
  ghost predicate VarcharAt(d: seq<byte>, o: nat, v: nat, b: seq<byte>)
    requires o + 4 <= |d| && v + 4 + |b| <= |d|
  {
    Int32At(d, o) == v && Int32At(d, v) == |b| && d[v + 4..v + 4 + |b|] == b
  }

  lemma {:induction false} VarcharStays(d: seq<byte>, o: nat, v: nat, b: seq<byte>, k: nat, t: seq<byte>)
    requires o + 4 <= |d| && v + 4 + |b| <= |d| && k + |t| <= |d| && VarcharAt(d, o, v, b)
    requires (o + 4 <= k || k + |t| <= o) && (k + |t| <= v || v + 4 + |b| <= k)
    ensures VarcharAt(Write(d, k, t), o, v, b)
  {
    Int32Beside(d, k, t, o);
    Int32Beside(d, k, t, v);
    ReadBeside(d, k, t, v + 4, |b|);
  }

  // Writing the place or the content of a later column leaves earlier ones alone.
  lemma {:induction false} StoredBeside(d: seq<byte>, cs: seq<Column>, vs: seq<Value>, i: nat, j: nat, k: nat, t: seq<byte>)
    requires i < j < |cs| == |vs| && |d| == TupleSize(cs, vs)
    requires Inlined(cs[i]) ==> |vs[i].bytes| <= cs[i].length
    requires Stored(d, cs, vs, i) && k + |t| <= |d|
    requires (Offset(cs, j) <= k && k + |t| <= FixedTotal(cs)) || VarOffset(cs, vs, j) <= k
    ensures Stored(Write(d, k, t), cs, vs, i)
  {
    Places(cs, vs, i, j);
    Places(cs, vs, i, |cs|);
    VarMono(cs, vs, 0, j);
    if Inlined(cs[i]) {
      ReadBeside(d, k, t, Offset(cs, i), |vs[i].bytes|);
    } else {
      VarcharStays(d, Offset(cs, i), VarOffset(cs, vs, i), vs[i].bytes, k, t);
    }
  }

  // A column is stored by its own stores,
  lemma {:induction false} StoresItself(d: seq<byte>, cs: seq<Column>, vs: seq<Value>, i: nat)
    requires i < |cs| == |vs| && Fits(cs, vs) && |d| == TupleSize(cs, vs)
    requires Inlined(cs[i]) ==> |vs[i].bytes| <= cs[i].length
    ensures Stored(StoredColumn(d, cs, vs, i), cs, vs, i)
  {
    Places(cs, vs, i, |cs|);
    if Inlined(cs[i]) {
      ReadBack(d, Offset(cs, i), vs[i].bytes);
    } else {
      VarcharStored(d, Offset(cs, i), VarOffset(cs, vs, i), vs[i].bytes);
      VarcharColumn(d, cs, vs, i);
    }
  }

  lemma {:induction false} VarcharColumn(d: seq<byte>, cs: seq<Column>, vs: seq<Value>, i: nat)
    requires i < |cs| == |vs| && Fits(cs, vs) && |d| == TupleSize(cs, vs) && !Inlined(cs[i])
    ensures var o, v, b := Offset(cs, i), VarOffset(cs, vs, i), vs[i].bytes;
      && o + 4 <= v && v + 4 + |b| <= |d|
      && StoredColumn(d, cs, vs, i) == Write(Write(Write(d, o, Encode(v)), v, Encode(|b|)), v + 4, b)
  {
    Places(cs, vs, i, |cs|);
  }

  lemma {:induction false} VarcharStored(d: seq<byte>, o: nat, v: int32, b: seq<byte>)
    requires o + 4 <= v && v + 4 + |b| <= |d| && |b| < 0x8000_0000
    ensures VarcharAt(Write(Write(Write(d, o, Encode(v)), v, Encode(|b|)), v + 4, b), o, v, b)
  {
    var d1 := Write(d, o, Encode(v));
    var d2 := Write(d1, v, Encode(|b|));
    Int32Back(d, o, v);
    Int32Beside(d1, v, Encode(|b|), o);
    Int32Back(d1, v, |b|);
    Int32Beside(d2, v + 4, b, o);
    Int32Beside(d2, v + 4, b, v);
    ReadBack(d2, v + 4, b);
  }

  // and stays so through those of later ones.
  lemma {:induction false} StaysStored(d: seq<byte>, cs: seq<Column>, vs: seq<Value>, i: nat, j: nat)
    requires i < j < |cs| == |vs| && Fits(cs, vs) && |d| == TupleSize(cs, vs)
    requires Inlined(cs[i]) ==> |vs[i].bytes| <= cs[i].length
    requires Inlined(cs[j]) ==> |vs[j].bytes| <= cs[j].length
    requires Stored(d, cs, vs, i)
    ensures Stored(StoredColumn(d, cs, vs, j), cs, vs, i)
  {
    Places(cs, vs, j, |cs|);
    if Inlined(cs[j]) {
      StoredBeside(d, cs, vs, i, j, Offset(cs, j), vs[j].bytes);
    } else {
      VarcharBeside(d, cs, vs, i, j, Encode(VarOffset(cs, vs, j)), Encode(|vs[j].bytes|));
    }
  }

  lemma {:induction false} VarcharBeside(d: seq<byte>, cs: seq<Column>, vs: seq<Value>, i: nat, j: nat, v: seq<byte>, n: seq<byte>)
    requires i < j < |cs| == |vs| && |d| == TupleSize(cs, vs) && !Inlined(cs[j]) && |v| == |n| == 4
    requires Inlined(cs[i]) ==> |vs[i].bytes| <= cs[i].length
    requires Stored(d, cs, vs, i)
    ensures var o, at, b := Offset(cs, j), VarOffset(cs, vs, j), vs[j].bytes;
      && o + 4 <= at && at + 4 + |b| <= |d|
      && Stored(Write(Write(Write(d, o, v), at, n), at + 4, b), cs, vs, i)
  {
    Places(cs, vs, j, |cs|);
    var o, at, b := Offset(cs, j), VarOffset(cs, vs, j), vs[j].bytes;
    StoredBeside(d, cs, vs, i, j, o, v);
    var d1 := Write(d, o, v);
    StoredBeside(d1, cs, vs, i, j, at, n);
    StoredBeside(Write(d1, at, n), cs, vs, i, j, at + 4, b);
  }

  // The values of the first `n` columns have room in their places.
  ghost predicate Roomy(cs: seq<Column>, vs: seq<Value>, n: nat) {
    n <= |cs| == |vs| && forall k :: 0 <= k < n && Inlined(cs[k]) ==> |vs[k].bytes| <= cs[k].length
  }

  lemma {:induction false} AllStored(bs: seq<seq<byte>>, cs: seq<Column>, vs: seq<Value>, m: nat, n: nat, i: nat)
    requires i < n <= m && Roomy(cs, vs, n) && Fits(cs, vs) && Builds(bs, cs, vs, m)
    ensures Stored(bs[n], cs, vs, i)
    decreases n
  {
    if n == i + 1 {
      StepStores(bs, cs, vs, m, i);
    } else {
      AllStored(bs, cs, vs, m, n - 1, i);
      StepStays(bs, cs, vs, m, n - 1, i);
    }
  }

  lemma {:induction false} StepStores(bs: seq<seq<byte>>, cs: seq<Column>, vs: seq<Value>, m: nat, i: nat)
    requires i < m && Fits(cs, vs) && Builds(bs, cs, vs, m) && (Inlined(cs[i]) ==> |vs[i].bytes| <= cs[i].length)
    ensures Stored(bs[i + 1], cs, vs, i)
  {
    assert StoreStep(bs, cs, vs, i);
    StoresItself(bs[i], cs, vs, i);
  }

  lemma {:induction false} StepStays(bs: seq<seq<byte>>, cs: seq<Column>, vs: seq<Value>, m: nat, j: nat, i: nat)
    requires i < j < m && Fits(cs, vs) && Builds(bs, cs, vs, m)
    requires Inlined(cs[i]) ==> |vs[i].bytes| <= cs[i].length
    requires Inlined(cs[j]) ==> |vs[j].bytes| <= cs[j].length
    requires Stored(bs[j], cs, vs, i)
    ensures Stored(bs[j + 1], cs, vs, i)
  {
    assert StoreStep(bs, cs, vs, j);
    StaysStored(bs[j], cs, vs, i, j);
  }

  lemma {:induction false} StoredIsRead(d: seq<byte>, cs: seq<Column>, vs: seq<Value>, i: nat)
    requires i < |cs| && Typed(cs, vs) && Wide(cs) && |d| == TupleSize(cs, vs) && Stored(d, cs, vs, i)
    ensures GetValue(d, cs, i) == Some(vs[i])
  {
    Places(cs, vs, i, |cs|);
  }

  lemma {:induction false} WideReadsBack(cs: seq<Column>, vs: seq<Value>, bs: seq<seq<byte>>)
    requires Wide(cs) && Typed(cs, vs) && Fits(cs, vs) && Builds(bs, cs, vs, |cs|)
    ensures ReadsBack(cs, vs, bs[|cs|])
  {
    forall i | 0 <= i < |cs|
      ensures GetValue(bs[|cs|], cs, i) == Some(vs[i])
      ensures StoreInBounds(cs, vs, i)
    {
      Places(cs, vs, i, |cs|);
      AllStored(bs, cs, vs, |cs|, |cs|, i);
      StoredIsRead(bs[|cs|], cs, vs, i);
    }
  }

  // ----- Columns that are too narrow -----

  // Stores of a column leave everything before its place alone.
  lemma {:induction false} BeforePlace(d: seq<byte>, cs: seq<Column>, vs: seq<Value>, j: nat, x: nat)
    requires j < |cs| == |vs| && Fits(cs, vs) && x < Offset(cs, j) && x < |d|
    ensures StoredColumn(d, cs, vs, j)[x] == d[x]
  {
    Places(cs, vs, j, |cs|);
  }

  lemma {:induction false} BeforePlaces(bs: seq<seq<byte>>, cs: seq<Column>, vs: seq<Value>, m: nat, n: nat, x: nat)
    requires m <= n <= |cs| == |vs| && Fits(cs, vs) && Builds(bs, cs, vs, |cs|) && x < Offset(cs, m) && x < TupleSize(cs, vs)
    ensures bs[n][x] == bs[m][x]
    decreases n
  {
    if m < n {
      BeforePlaces(bs, cs, vs, m, n - 1, x);
      OffsetMono(cs, m, n - 1);
      StepBefore(bs, cs, vs, n - 1, x);
    }
  }

  lemma {:induction false} StepBefore(bs: seq<seq<byte>>, cs: seq<Column>, vs: seq<Value>, k: nat, x: nat)
    requires k < |cs| == |vs| && Fits(cs, vs) && Builds(bs, cs, vs, |cs|) && x < Offset(cs, k) && x < TupleSize(cs, vs)
    ensures bs[k + 1][x] == bs[k][x]
  {
    assert StoreStep(bs, cs, vs, k);
    BeforePlace(bs[k], cs, vs, k, x);
  }

  // The first byte of what column `k` puts in its place.
  ghost function FirstByte(cs: seq<Column>, vs: seq<Value>, k: nat): byte
    requires k < |cs| == |vs| && Fits(cs, vs) && (Inlined(cs[k]) ==> |vs[k].bytes| > 0)
  {
    Places(cs, vs, k, |cs|);
    if Inlined(cs[k]) then vs[k].bytes[0] else Encode(VarOffset(cs, vs, k))[0]
  }

  lemma {:induction false} FirstStored(d: seq<byte>, cs: seq<Column>, vs: seq<Value>, k: nat)
    requires k < |cs| == |vs| && Fits(cs, vs) && (Inlined(cs[k]) ==> |vs[k].bytes| > 0)
    requires |d| == TupleSize(cs, vs) && InBounds(cs, vs)
    ensures Offset(cs, k) < |d| && StoredColumn(d, cs, vs, k)[Offset(cs, k)] == FirstByte(cs, vs, k)
  {
    Places(cs, vs, k, |cs|);
    assert StoreInBounds(cs, vs, k);
    var o := Offset(cs, k);
    if !Inlined(cs[k]) {
      var v, b := VarOffset(cs, vs, k), vs[k].bytes;
      var d1 := Write(d, o, Encode(v));
      WriteAt(d, o, Encode(v), o);
      WriteAt(d1, v, Encode(|b|), o);
      WriteAt(Write(d1, v, Encode(|b|)), v + 4, b, o);
    }
  }

  // Zeros for all columns and empty strings, but for one byte of column `i`: the first
  // that its place has no room for.
  ghost function Sample(cs: seq<Column>, i: nat, b: byte): (vs: seq<Value>)
    requires i < |cs|
    ensures Typed(cs, vs)
    ensures Inlined(cs[i]) && cs[i].length < TypeSize(cs[i].columnType) ==> vs[i].bytes[cs[i].length] == b
    ensures forall j :: 0 <= j < |cs| ==> if Inlined(cs[j]) then j != i ==> vs[j].bytes[0] == 0 else vs[j].bytes == []
  {
    seq(|cs|, j requires 0 <= j < |cs| =>
      Value(cs[j].columnType, seq(TypeSize(cs[j].columnType), m => if j == i && m == cs[i].length then b else 0)))
  }

  // Offsets depend on the lengths of the values only.
  lemma {:induction false} VarTotalSame(cs: seq<Column>, vs: seq<Value>, ws: seq<Value>, n: nat)
    requires n <= |cs| == |vs| == |ws| && forall j :: 0 <= j < |cs| ==> |vs[j].bytes| == |ws[j].bytes|
    ensures VarTotal(cs, vs, n) == VarTotal(cs, ws, n)
  {
    if n > 0 { VarTotalSame(cs, vs, ws, n - 1); }
  }

  lemma {:induction false} SampleTotal(cs: seq<Column>, vs: seq<Value>, n: nat)
    requires n <= |cs| == |vs| && forall j :: 0 <= j < |cs| && !Inlined(cs[j]) ==> vs[j].bytes == []
    ensures VarTotal(cs, vs, n) <= 4 * n
  {
    if n > 0 { SampleTotal(cs, vs, n - 1); }
  }

  lemma {:induction false} SampleFits(cs: seq<Column>, i: nat, b: byte)
    requires i < |cs| && FixedTotal(cs) + 4 * |cs| < 0x8000_0000
    ensures Fits(cs, Sample(cs, i, b))
  {
    SampleTotal(cs, Sample(cs, i, b), |cs|);
  }

  // The first byte of a place stays what its column put there.
  lemma {:induction false} FirstStays(bs: seq<seq<byte>>, cs: seq<Column>, vs: seq<Value>, k: nat)
    requires k < |cs| == |vs| && Fits(cs, vs) && (Inlined(cs[k]) ==> |vs[k].bytes| > 0) && FixedLength(cs[k]) > 0
    requires Builds(bs, cs, vs, |cs|) && InBounds(cs, vs)
    ensures Offset(cs, k) < |bs[|cs|]| && bs[|cs|][Offset(cs, k)] == FirstByte(cs, vs, k)
  {
    assert StoreStep(bs, cs, vs, k);
    FirstStored(bs[k], cs, vs, k);
    BeforePlaces(bs, cs, vs, k + 1, |cs|, Offset(cs, k));
  }

  // The next column overwrites the byte for which there is no room.
  lemma {:induction false} NextOverwrites(cs: seq<Column>, i: nat, vs: seq<Value>, bs: seq<seq<byte>>, b: byte)
    requires i + 1 < |cs| && Inlined(cs[i]) && cs[i].length < TypeSize(cs[i].columnType) && FixedLength(cs[i + 1]) > 0
    requires Typed(cs, vs) && Fits(cs, vs) && Builds(bs, cs, vs, |cs|) && vs[i].bytes[cs[i].length] == b
    requires (Inlined(cs[i + 1]) ==> |vs[i + 1].bytes| > 0) && FirstByte(cs, vs, i + 1) != b
    ensures !ReadsBack(cs, vs, bs[|cs|])
  {
    if InBounds(cs, vs) {
      FirstStays(bs, cs, vs, i + 1);
      LostByte(bs[|cs|], cs, vs[i], i, Offset(cs, i + 1));
    }
  }

  // A column with another byte where the next one starts does not read back.
  lemma {:induction false} LostByte(r: seq<byte>, cs: seq<Column>, v: Value, i: nat, x: nat)
    requires i < |cs| && Inlined(cs[i]) && cs[i].length < TypeSize(cs[i].columnType) == |v.bytes|
    requires x == Offset(cs, i) + cs[i].length < |r| && r[x] != v.bytes[cs[i].length]
    ensures GetValue(r, cs, i) != Some(v)
  {
    var o := Offset(cs, i);
    if o + |v.bytes| <= |r| {
      assert r[o..o + |v.bytes|][cs[i].length] == r[x];
    }
  }

  lemma {:induction false} NarrowBefore(cs: seq<Column>, i: nat)
    requires Declared(cs) && FixedTotal(cs) + 4 * |cs| < 0x8000_0000
    requires i + 1 < |cs| && Inlined(cs[i]) && cs[i].length < TypeSize(cs[i].columnType)
    ensures !RoundTrips(cs)
  {
    SampleFits(cs, i, 0);
    var b := if FirstByte(cs, Sample(cs, i, 0), i + 1) == 1 then 2 else 1;
    SampleFits(cs, i, b);
    SampleFirst(cs, i, b);
    var vs := Sample(cs, i, b);
    var bs := SomeBuild(cs, vs, |cs|, seq(TupleSize(cs, vs), _ => 0));
    NextOverwrites(cs, i, vs, bs, b);
  }

  // Every tuple can be built in every buffer.
  lemma {:induction false} SomeBuild(cs: seq<Column>, vs: seq<Value>, n: nat, d: seq<byte>) returns (bs: seq<seq<byte>>)
    requires Fits(cs, vs) && n <= |cs| && |d| == TupleSize(cs, vs)
    ensures Builds(bs, cs, vs, n) && bs[0] == d
  {
    if n == 0 {
      bs := [d];
    } else {
      bs := SomeBuild(cs, vs, n - 1, d);
      bs := BuildsMore(bs, cs, vs, n - 1);
    }
  }

  lemma {:induction false} BuildsMore(bs: seq<seq<byte>>, cs: seq<Column>, vs: seq<Value>, n: nat) returns (bs': seq<seq<byte>>)
    requires n < |cs| && Fits(cs, vs) && Builds(bs, cs, vs, n)
    ensures Builds(bs', cs, vs, n + 1) && bs'[0] == bs[0] && bs'[n + 1] == StoredColumn(bs[n], cs, vs, n)
  {
    bs' := bs + [StoredColumn(bs[n], cs, vs, n)];
    forall i | 0 <= i < n + 1
      ensures StoreStep(bs', cs, vs, i)
    {
      assert i < n ==> StoreStep(bs, cs, vs, i);
    }
  }

  // What the next column puts in its place does not depend on the byte.
  lemma {:induction false} SampleFirst(cs: seq<Column>, i: nat, b: byte)
    requires i + 1 < |cs| && Fits(cs, Sample(cs, i, 0)) && Fits(cs, Sample(cs, i, b))
    ensures FirstByte(cs, Sample(cs, i, b), i + 1) == FirstByte(cs, Sample(cs, i, 0), i + 1)
  {
    VarTotalSame(cs, Sample(cs, i, b), Sample(cs, i, 0), i + 1);
  }

  // Before the first VARCHAR no content is stored.
  lemma {:induction false} NoContent(cs: seq<Column>, vs: seq<Value>, n: nat)
    requires n <= |cs| == |vs| && forall j :: 0 <= j < n ==> Inlined(cs[j])
    ensures VarOffset(cs, vs, n) == FixedTotal(cs)
    decreases n
  {
    if n > 0 {
      NoContent(cs, vs, n - 1);
    }
  }

  lemma {:induction false} NonZero(b: seq<byte>)
    requires |b| == 4 && b[0] == 1
    ensures Decode(b) != 0
  {
  }

  // A last column that is too narrow overwrites the length of the first VARCHAR.
  lemma {:induction false} LastOverwrites(cs: seq<Column>, vs: seq<Value>, bs: seq<seq<byte>>, j: nat)
    requires |cs| > 0 && Typed(cs, vs) && Fits(cs, vs) && Builds(bs, cs, vs, |cs|) && InBounds(cs, vs)
    requires var i := |cs| - 1;
      && Inlined(cs[i]) && cs[i].length < TypeSize(cs[i].columnType) && vs[i].bytes[cs[i].length] == 1
      && Wide(cs[..i]) && j < i && !Inlined(cs[j]) && vs[j].bytes == []
    requires forall k :: 0 <= k < j ==> Inlined(cs[k])
    ensures GetValue(bs[|cs|], cs, j) != Some(vs[j])
  {
    var i := |cs| - 1;
    LastPlaces(cs, vs, j);
    OffsetStored(bs, cs, vs, i, j);
    LastBuilt(bs, cs, vs);
    LengthLost(bs[i], cs, j, Offset(cs, i), vs[i].bytes);
  }

  // A VARCHAR among the columns before has its offset in place,
  lemma {:induction false} OffsetStored(bs: seq<seq<byte>>, cs: seq<Column>, vs: seq<Value>, i: nat, j: nat)
    requires j < i < |cs| && Typed(cs, vs) && Wide(cs[..i]) && !Inlined(cs[j]) && Fits(cs, vs) && Builds(bs, cs, vs, |cs|)
    ensures Offset(cs, j) + 4 <= |bs[i]| && Int32At(bs[i], Offset(cs, j)) == VarOffset(cs, vs, j)
  {
    Places(cs, vs, j, |cs|);
    assert forall k :: 0 <= k < i ==> cs[..i][k] == cs[k];
    AllStored(bs, cs, vs, |cs|, i, j);
  }

  // the last column writes behind it,
  lemma {:induction false} LastBuilt(bs: seq<seq<byte>>, cs: seq<Column>, vs: seq<Value>)
    requires |cs| > 0 && Inlined(cs[|cs| - 1]) && Fits(cs, vs) && Builds(bs, cs, vs, |cs|) && InBounds(cs, vs)
    ensures Offset(cs, |cs| - 1) + |vs[|cs| - 1].bytes| <= |bs[|cs| - 1]|
    ensures bs[|cs|] == Write(bs[|cs| - 1], Offset(cs, |cs| - 1), vs[|cs| - 1].bytes)
  {
    assert StoreStep(bs, cs, vs, |cs| - 1) && StoreInBounds(cs, vs, |cs| - 1);
  }

  // and so into the length.
  lemma {:induction false} LengthLost(before: seq<byte>, cs: seq<Column>, j: nat, k: nat, t: seq<byte>)
    requires j < |cs| && !Inlined(cs[j]) && Offset(cs, j) + 4 <= k && k + |t| <= |before|
    requires var x := Int32At(before, Offset(cs, j)); k <= x < k + |t| && x + 4 <= |before| && t[x - k] == 1
    ensures GetValue(Write(before, k, t), cs, j) != Some(Value(VARCHAR, []))
  {
    var x := Int32At(before, Offset(cs, j));
    LastWrite(before, k, t, Offset(cs, j), x);
    LostLength(Write(before, k, t), cs, j, x);
  }

  // The content of the first VARCHAR starts right behind the last place.
  lemma {:induction false} LastPlaces(cs: seq<Column>, vs: seq<Value>, j: nat)
    requires |cs| == |vs| && j < |cs| - 1 && !Inlined(cs[j]) && Inlined(cs[|cs| - 1])
    requires forall k :: 0 <= k < j ==> Inlined(cs[k])
    ensures var i, x := |cs| - 1, FixedTotal(cs);
      Offset(cs, j) + 4 <= Offset(cs, i) && x == Offset(cs, i) + cs[i].length == VarOffset(cs, vs, j) && x + 4 <= TupleSize(cs, vs)
  {
    NoContent(cs, vs, j);
    Places(cs, vs, j, |cs| - 1);
    Places(cs, vs, j, |cs|);
  }

  lemma {:induction false} LastWrite(d: seq<byte>, k: nat, t: seq<byte>, o: nat, x: nat)
    requires k + |t| <= |d| && o + 4 <= k <= x < k + |t|
    ensures Int32At(Write(d, k, t), o) == Int32At(d, o) && Write(d, k, t)[x] == t[x - k]
  {
    Int32Beside(d, k, t, o);
    WriteAt(d, k, t, x);
  }

  // A VARCHAR whose length starts with another byte than 0 is not the empty one.
  lemma {:induction false} LostLength(r: seq<byte>, cs: seq<Column>, j: nat, x: nat)
    requires j < |cs| && !Inlined(cs[j]) && Offset(cs, j) + 4 <= |r| && x + 4 <= |r|
    requires Int32At(r, Offset(cs, j)) == x && r[x] == 1
    ensures GetValue(r, cs, j) != Some(Value(VARCHAR, []))
  {
    NonZero(r[x..x + 4]);
  }

  lemma {:induction false} NarrowLast(cs: seq<Column>)
    requires Declared(cs) && FixedTotal(cs) + 4 * |cs| < 0x8000_0000 && |cs| > 0
    requires var i := |cs| - 1; Inlined(cs[i]) && cs[i].length < TypeSize(cs[i].columnType) && Wide(cs[..i])
    ensures !RoundTrips(cs)
  {
    var i := |cs| - 1;
    var vs := Sample(cs, i, 1);
    SampleFits(cs, i, 1);
    var bs := SomeBuild(cs, vs, |cs|, seq(TupleSize(cs, vs), _ => 0));
    var j := 0;
    while j < i && Inlined(cs[j])
      invariant 0 <= j <= i && forall k :: 0 <= k < j ==> Inlined(cs[k])
    {
      j := j + 1;
    }
    if j == i {
      NoContent(cs, vs, |cs|);
      assert !StoreInBounds(cs, vs, i);
    } else if InBounds(cs, vs) {
      LastOverwrites(cs, vs, bs, j);
    }
    assert !ReadsBack(cs, vs, bs[|cs|]);
  }

  /** For every schema: all values read back, and no store leaves the buffer, exactly when
      every inline column is as long as its type needs. */
  lemma {:induction false} RoundTripIff(cs: seq<Column>)
    requires Declared(cs) && FixedTotal(cs) + 4 * |cs| < 0x8000_0000
    ensures RoundTrips(cs) <==> Wide(cs)
  {
    if Wide(cs) {
      forall vs, bs | Typed(cs, vs) && Fits(cs, vs) && Builds(bs, cs, vs, |cs|)
        ensures ReadsBack(cs, vs, bs[|cs|])
      {
        WideReadsBack(cs, vs, bs);
      }
    } else {
      var i :| 0 <= i < |cs| && Inlined(cs[i]) && TypeSize(cs[i].columnType) > cs[i].length;
      if i + 1 < |cs| {
        NarrowBefore(cs, i);
      } else if Wide(cs[..i]) {
        NarrowLast(cs);
      } else {
        var k :| 0 <= k < i && Inlined(cs[..i][k]) && TypeSize(cs[..i][k].columnType) > cs[..i][k].length;
        NarrowBefore(cs, k);
      }
    }
  }

  // An INTEGER column of two bytes before a SMALLINT: the upper half is lost.
  lemma {:induction false} NarrowColumnIsLost()
    ensures !RoundTrips([Column(INTEGER, 2), Column(SMALLINT, 2)])
  {
    var cs := [Column(INTEGER, 2), Column(SMALLINT, 2)];
    assert Inlined(cs[0]) && TypeSize(cs[0].columnType) > cs[0].length;
    RoundTripIff(cs);
  }

  // ----- Every byte is written -----

  // Every inline column is as long as its type, and no longer.
  predicate Exact(cs: seq<Column>) {
    forall i :: 0 <= i < |cs| && Inlined(cs[i]) ==> cs[i].length == TypeSize(cs[i].columnType)
  }

  // The bytes of a tuple do not depend on what the buffer held before.
  ghost predicate Filled(cs: seq<Column>) {
    forall vs, bs, bs' :: Typed(cs, vs) && Fits(cs, vs) && Builds(bs, cs, vs, |cs|) && Builds(bs', cs, vs, |cs|) ==>
      bs[|cs|] == bs'[|cs|]
  }

  // A column writes the bytes it owns,
  lemma {:induction false} StoreOwned(d: seq<byte>, d': seq<byte>, cs: seq<Column>, vs: seq<Value>, i: nat, x: nat)
    requires i < |cs| == |vs| && Fits(cs, vs) && |d| == |d'| == TupleSize(cs, vs) && x < |d|
    requires Owns(cs, vs, i, x) && (Inlined(cs[i]) ==> |vs[i].bytes| == cs[i].length)
    ensures StoredColumn(d, cs, vs, i)[x] == StoredColumn(d', cs, vs, i)[x]
  {
    Places(cs, vs, i, |cs|);
    if Inlined(cs[i]) {
      WriteAt(d, Offset(cs, i), vs[i].bytes, x);
      WriteAt(d', Offset(cs, i), vs[i].bytes, x);
    } else {
      VarcharColumn(d, cs, vs, i);
      VarcharColumn(d', cs, vs, i);
      var o, v, b := Offset(cs, i), VarOffset(cs, vs, i), vs[i].bytes;
      VarcharBytes(d, o, Encode(v), v, Encode(|b|), b, x);
      VarcharBytes(d', o, Encode(v), v, Encode(|b|), b, x);
    }
  }

  // Byte `x` after the three stores of a VARCHAR.
  lemma {:induction false} VarcharBytes(d: seq<byte>, o: nat, p: seq<byte>, v: nat, n: seq<byte>, b: seq<byte>, x: nat)
    requires |p| == 4 && |n| == 4 && o + 4 <= v && v + 4 + |b| <= |d| && x < |d|
    ensures Write(Write(Write(d, o, p), v, n), v + 4, b)[x] ==
      if o <= x < o + 4 then p[x - o] else if v <= x < v + 4 then n[x - v] else if v + 4 <= x < v + 4 + |b| then b[x - v - 4] else d[x]
  {
    var d1 := Write(d, o, p);
    var d2 := Write(d1, v, n);
    WriteAt(d, o, p, x);
    WriteAt(d1, v, n, x);
    WriteAt(d2, v + 4, b, x);
  }

  // and no others, if it is wide enough.
  lemma {:induction false} StoreOther(d: seq<byte>, cs: seq<Column>, vs: seq<Value>, i: nat, x: nat)
    requires i < |cs| == |vs| && Fits(cs, vs) && |d| == TupleSize(cs, vs) && x < |d|
    requires if Inlined(cs[i]) then !(Offset(cs, i) <= x < Offset(cs, i) + |vs[i].bytes|) else !Owns(cs, vs, i, x)
    ensures StoredColumn(d, cs, vs, i)[x] == d[x]
  {
    Places(cs, vs, i, |cs|);
    if !Inlined(cs[i]) {
      VarcharColumn(d, cs, vs, i);
      VarcharBytes(d, Offset(cs, i), Encode(VarOffset(cs, vs, i)), VarOffset(cs, vs, i), Encode(|vs[i].bytes|), vs[i].bytes, x);
    }
  }

  lemma {:induction false} StepOther(bs: seq<seq<byte>>, cs: seq<Column>, vs: seq<Value>, m: nat, i: nat, x: nat)
    requires i < m && Fits(cs, vs) && Builds(bs, cs, vs, m) && x < TupleSize(cs, vs)
    requires if Inlined(cs[i]) then !(Offset(cs, i) <= x < Offset(cs, i) + |vs[i].bytes|) else !Owns(cs, vs, i, x)
    ensures bs[i + 1][x] == bs[i][x]
  {
    assert StoreStep(bs, cs, vs, i);
    StoreOther(bs[i], cs, vs, i, x);
  }

  // Behind its owner nobody touches a byte.
  lemma {:induction false} OwnedStays(bs: seq<seq<byte>>, cs: seq<Column>, vs: seq<Value>, i: nat, n: nat, x: nat)
    requires i < n <= |cs| && Fits(cs, vs) && Roomy(cs, vs, |cs|) && Builds(bs, cs, vs, |cs|)
    requires x < TupleSize(cs, vs) && Owns(cs, vs, i, x)
    ensures bs[n][x] == bs[i + 1][x]
    decreases n
  {
    if n > i + 1 {
      OwnedStays(bs, cs, vs, i, n - 1, x);
      RegionsFill(cs, vs, x);
      assert !Owns(cs, vs, n - 1, x);
      StepOther(bs, cs, vs, |cs|, n - 1, x);
    }
  }

  lemma {:induction false} SameByte(bs: seq<seq<byte>>, bs': seq<seq<byte>>, cs: seq<Column>, vs: seq<Value>, x: nat)
    requires Exact(cs) && Typed(cs, vs) && Fits(cs, vs) && Builds(bs, cs, vs, |cs|) && Builds(bs', cs, vs, |cs|)
    requires x < TupleSize(cs, vs)
    ensures bs[|cs|][x] == bs'[|cs|][x]
  {
    RegionsFill(cs, vs, x);
    var i :| 0 <= i < |cs| && Owns(cs, vs, i, x);
    assert StoreStep(bs, cs, vs, i) && StoreStep(bs', cs, vs, i);
    StoreOwned(bs[i], bs'[i], cs, vs, i, x);
    OwnedStays(bs, cs, vs, i, |cs|, x);
    OwnedStays(bs', cs, vs, i, |cs|, x);
  }

  // A byte that no store covers keeps what the buffer held.
  lemma {:induction false} PaddingStays(bs: seq<seq<byte>>, cs: seq<Column>, vs: seq<Value>, i: nat, n: nat, x: nat)
    requires n <= |cs| && Fits(cs, vs) && Roomy(cs, vs, |cs|) && Builds(bs, cs, vs, |cs|)
    requires i < |cs| && Inlined(cs[i]) && Offset(cs, i) + |vs[i].bytes| <= x < Offset(cs, i) + cs[i].length && x < TupleSize(cs, vs)
    ensures bs[n][x] == bs[0][x]
    decreases n
  {
    if n > 0 {
      PaddingStays(bs, cs, vs, i, n - 1, x);
      RegionsFill(cs, vs, x);
      assert Owns(cs, vs, i, x);
      assert n - 1 != i ==> !Owns(cs, vs, n - 1, x);
      StepOther(bs, cs, vs, |cs|, n - 1, x);
    }
  }

  lemma {:induction false} PaddingShows(cs: seq<Column>, i: nat)
    requires Wide(cs) && FixedTotal(cs) + 4 * |cs| < 0x8000_0000
    requires i < |cs| && Inlined(cs[i]) && cs[i].length > TypeSize(cs[i].columnType)
    ensures !Filled(cs)
  {
    var vs := Sample(cs, i, 0);
    SampleFits(cs, i, 0);
    var size, x := TupleSize(cs, vs), Offset(cs, i) + TypeSize(cs[i].columnType);
    Places(cs, vs, i, |cs|);
    var bs := SomeBuild(cs, vs, |cs|, seq(size, _ => 0));
    var bs' := SomeBuild(cs, vs, |cs|, seq(size, _ => 1));
    PaddingStays(bs, cs, vs, i, |cs|, x);
    PaddingStays(bs', cs, vs, i, |cs|, x);
    assert bs[|cs|][x] != bs'[|cs|][x];
  }

  /** For every schema, if every inline column is as long as its type, the constructor
      writes every byte of the tuple; and among the schemas whose values read back only
      for those. */
  lemma {:induction false} FilledIff(cs: seq<Column>)
    ensures Exact(cs) ==> Filled(cs)
    ensures Wide(cs) && FixedTotal(cs) + 4 * |cs| < 0x8000_0000 ==> (Filled(cs) <==> Exact(cs))
  {
    if Exact(cs) {
      forall vs, bs, bs' | Typed(cs, vs) && Fits(cs, vs) && Builds(bs, cs, vs, |cs|) && Builds(bs', cs, vs, |cs|)
        ensures bs[|cs|] == bs'[|cs|]
      {
        forall x | 0 <= x < TupleSize(cs, vs)
          ensures bs[|cs|][x] == bs'[|cs|][x]
        {
          SameByte(bs, bs', cs, vs, x);
        }
      }
    } else if Wide(cs) && FixedTotal(cs) + 4 * |cs| < 0x8000_0000 {
      var i :| 0 <= i < |cs| && Inlined(cs[i]) && cs[i].length != TypeSize(cs[i].columnType);
      PaddingShows(cs, i);
    }
  }

  // ----- The schema and the tuple as they are built -----

  // The columns among the first `n` that are not inlined.
  function Uninlined(cs: seq<Column>, n: nat): seq<nat>
    requires n <= |cs|
  {
    if n == 0 then [] else Uninlined(cs, n - 1) + if Inlined(cs[n - 1]) then [] else [n - 1]
  }

  // They are listed in order, each of them once.
  lemma {:induction false} UninlinedIs(cs: seq<Column>, n: nat)
    requires n <= |cs|
    ensures forall i :: i in Uninlined(cs, n) <==> 0 <= i < n && !Inlined(cs[i])
    ensures forall k, m :: 0 <= k < m < |Uninlined(cs, n)| ==> Uninlined(cs, n)[k] < Uninlined(cs, n)[m]
  {
    if n > 0 {
      UninlinedIs(cs, n - 1);
      var us := Uninlined(cs, n - 1);
      forall k | 0 <= k < |us|
        ensures us[k] < n - 1
      {
        assert us[k] in us;
      }
    }
  }

  // Column offsets, the columns that are not inlined, and the length of the fixed part.
  method BuildSchema(cs: seq<Column>) returns (offsets: seq<nat>, uninlined: seq<nat>, length: nat)
    ensures |offsets| == |cs| && forall i {:trigger offsets[i]} :: 0 <= i < |cs| ==> offsets[i] == Offset(cs, i)
    ensures uninlined == Uninlined(cs, |cs|) && length == FixedTotal(cs)
    ensures forall i :: i in uninlined <==> 0 <= i < |cs| && !Inlined(cs[i])
    ensures forall k, m :: 0 <= k < m < |uninlined| ==> uninlined[k] < uninlined[m]
  {
    UninlinedIs(cs, |cs|);
    offsets, uninlined, length := [], [], 0;
    var n := 0;
    while n < |cs|
      invariant n <= |cs| && |offsets| == n && length == Offset(cs, n) && uninlined == Uninlined(cs, n)
      invariant forall i {:trigger offsets[i]} :: 0 <= i < n ==> offsets[i] == Offset(cs, i)
    {
      if !Inlined(cs[n]) { uninlined := uninlined + [n]; }
      offsets := offsets + [length];
      length := length + FixedLength(cs[n]);
      n := n + 1;
    }
  }

  // The room for the contents of the first `m` columns of a list.
  ghost function Sum(vs: seq<Value>, us: seq<nat>, m: nat): nat
    requires m <= |us| && forall k :: 0 <= k < |us| ==> us[k] < |vs|
  {
    if m == 0 then 0 else Sum(vs, us, m - 1) + |vs[us[m - 1]].bytes| + 4
  }

  lemma {:induction false} SumPrefix(vs: seq<Value>, us: seq<nat>, u: nat, m: nat)
    requires m <= |us| && u < |vs| && forall k :: 0 <= k < |us| ==> us[k] < |vs|
    ensures Sum(vs, us + [u], m) == Sum(vs, us, m)
  {
    if m > 0 { SumPrefix(vs, us, u, m - 1); }
  }

  lemma {:induction false} UninlinedBound(cs: seq<Column>, n: nat)
    requires n <= |cs|
    ensures forall k :: 0 <= k < |Uninlined(cs, n)| ==> Uninlined(cs, n)[k] < n && !Inlined(cs[Uninlined(cs, n)[k]])
  {
    if n > 0 { UninlinedBound(cs, n - 1); }
  }

  // Adding up the columns that are not inlined gives the room for all contents.
  lemma {:induction false} SumIsTotal(cs: seq<Column>, vs: seq<Value>, n: nat)
    requires n <= |cs| == |vs|
    ensures forall k :: 0 <= k < |Uninlined(cs, n)| ==> Uninlined(cs, n)[k] < |vs|
    ensures Sum(vs, Uninlined(cs, n), |Uninlined(cs, n)|) == VarTotal(cs, vs, n)
  {
    UninlinedBound(cs, n);
    if n > 0 {
      SumIsTotal(cs, vs, n - 1);
      var us := Uninlined(cs, n - 1);
      if Inlined(cs[n - 1]) {
        assert Uninlined(cs, n) == us;
      } else {
        SumPrefix(vs, us, n - 1, |us|);
      }
    }
  }

  // The size of the tuple, adding up the columns that are not inlined.
  method SizeOf(cs: seq<Column>, vs: seq<Value>, length: nat, uninlined: seq<nat>) returns (size: nat)
    requires |cs| == |vs| && length == FixedTotal(cs) && uninlined == Uninlined(cs, |cs|)
    ensures size == TupleSize(cs, vs)
  {
    SumIsTotal(cs, vs, |cs|);
    size := length;
    var m := 0;
    while m < |uninlined|
      invariant m <= |uninlined| && size == length + Sum(vs, uninlined, m)
    {
      size := size + |vs[uninlined[m]].bytes| + 4;
      m := m + 1;
    }
  }

  /** The stores of the constructor; every column reads back its value if the columns are
      wide enough. */
  method BuildTuple(cs: seq<Column>, vs: seq<Value>) returns (data: array<byte>, ghost bs: seq<seq<byte>>)
    requires Typed(cs, vs) && Fits(cs, vs) && InBounds(cs, vs)
    ensures fresh(data) && data.Length == TupleSize(cs, vs)
    ensures Builds(bs, cs, vs, |cs|) && data[..] == bs[|cs|]
    ensures Wide(cs) ==> forall i :: 0 <= i < |cs| ==> GetValue(data[..], cs, i) == Some(vs[i])
  {
    var offsets, uninlined, length := BuildSchema(cs);
    var size := SizeOf(cs, vs, length, uninlined);
    data := new byte[size];
    bs := StoreColumns(data, cs, vs, offsets, length);
    if Wide(cs) { WideReadsBack(cs, vs, bs); }
  }

  method StoreColumns(data: array<byte>, cs: seq<Column>, vs: seq<Value>, offsets: seq<nat>, length: nat)
    returns (ghost bs: seq<seq<byte>>)
    requires Fits(cs, vs) && InBounds(cs, vs) && data.Length == TupleSize(cs, vs)
    requires length == FixedTotal(cs) && |offsets| == |cs| && forall i {:trigger offsets[i]} :: 0 <= i < |cs| ==> offsets[i] == Offset(cs, i)
    modifies data
    ensures Builds(bs, cs, vs, |cs|) && bs[0] == old(data[..]) && data[..] == bs[|cs|]
  {
    bs := [data[..]];
    var offset, n := length, 0;
    while n < |cs|
      invariant n <= |cs| && offset == VarOffset(cs, vs, n)
      invariant Builds(bs, cs, vs, n) && bs[0] == old(data[..]) && data[..] == bs[n]
    {
      bs := BuildsMore(bs, cs, vs, n);
      StoreColumn(data, cs, vs, n, offsets[n], offset);
      if !Inlined(cs[n]) { offset := offset + |vs[n].bytes| + 4; }
      n := n + 1;
    }
  }

  method StoreColumn(data: array<byte>, cs: seq<Column>, vs: seq<Value>, n: nat, place: nat, offset: nat)
    requires Fits(cs, vs) && InBounds(cs, vs) && data.Length == TupleSize(cs, vs)
    requires n < |cs| && place == Offset(cs, n) && offset == VarOffset(cs, vs, n)
    modifies data
    ensures data[..] == StoredColumn(old(data[..]), cs, vs, n)
  {
    Places(cs, vs, n, |cs|);
    assert StoreInBounds(cs, vs, n);
    if Inlined(cs[n]) {
      PutBytes(data, place, vs[n].bytes);
    } else {
      PutBytes(data, place, Encode(offset));
      PutBytes(data, offset, Encode(|vs[n].bytes|));
      PutBytes(data, offset + 4, vs[n].bytes);
    }
  }
}
