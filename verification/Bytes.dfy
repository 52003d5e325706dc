/**
 Bytes, 32-bit integers stored with the low byte first, and writing a run of bytes over
 another.
 */
module Bytes {
  type byte = b: int | 0 <= b < 256

  type int32 = v: int | -0x8000_0000 <= v < 0x8000_0000

  function Encode(v: int32): (b: seq<byte>)
    ensures |b| == 4
  {
    var u := if v < 0 then v + 0x1_0000_0000 else v;
    [u % 256, u / 256 % 256, u / 0x1_0000 % 256, u / 0x100_0000]
  }

  function Unsigned(b0: int, b1: int, b2: int, b3: int): int {
    b0 + 256 * b1 + 0x1_0000 * b2 + 0x100_0000 * b3
  }

  function Decode(b: seq<byte>): int32
    requires |b| == 4
  {
    var u := Unsigned(b[0], b[1], b[2], b[3]);
    if u >= 0x8000_0000 then u - 0x1_0000_0000 else u
  }

  lemma DecodeEncode(v: int32)
    ensures Decode(Encode(v)) == v
  {
    var u := if v < 0 then v + 0x1_0000_0000 else v;
    var u1 := u / 256;
    var u2 := u1 / 256;
    assert u / 0x1_0000 == u2;
    assert u / 0x100_0000 == u2 / 256;
  }

  function Write(d: seq<byte>, k: nat, t: seq<byte>): (r: seq<byte>)
    requires k + |t| <= |d|
    ensures |r| == |d|
  {
    d[..k] + t + d[k + |t|..]
  }

  function Int32At(d: seq<byte>, k: nat): int32
    requires k + 4 <= |d|
  {
    Decode(d[k..k + 4])
  }

  // Bytes beside the written ones are still there.
  lemma ReadBeside(d: seq<byte>, k: nat, t: seq<byte>, m: nat, n: nat)
    requires k + |t| <= |d| && m + n <= |d|
    ensures m + n <= k || k + |t| <= m ==> Write(d, k, t)[m..m + n] == d[m..m + n]
  {
  }

  lemma TailBeside(d: seq<byte>, k: nat, t: seq<byte>, m: nat)
    requires k + |t| <= m <= |d|
    ensures Write(d, k, t)[m..] == d[m..]
  {
  }

  lemma TailWrite(d: seq<byte>, k: nat, t: seq<byte>, m: nat)
    requires m <= k && k + |t| <= |d|
    ensures Write(d, k, t)[m..] == Write(d[m..], k - m, t)
  {
  }

  lemma HeadBeside(d: seq<byte>, k: nat, t: seq<byte>, m: nat)
    requires m <= k && k + |t| <= |d|
    ensures Write(d, k, t)[..m] == d[..m]
  {
  }

  lemma Within(d: seq<byte>, a: nat, b: nat, x: nat, y: nat)
    requires x <= y && a + y <= b <= |d|
    ensures d[a..b][x..y] == d[a + x..a + y]
  {
    var s, t := d[a..b][x..y], d[a + x..a + y];
    forall n | 0 <= n < y - x
      ensures s[n] == t[n]
    {
      assert s[n] == d[a..b][x + n];
    }
  }

  lemma ReadBack(d: seq<byte>, k: nat, t: seq<byte>)
    requires k + |t| <= |d|
    ensures Write(d, k, t)[k..k + |t|] == t
  {
  }

  lemma Int32Beside(d: seq<byte>, k: nat, t: seq<byte>, m: nat)
    requires k + |t| <= |d| && m + 4 <= |d| && (m + 4 <= k || k + |t| <= m)
    ensures Int32At(Write(d, k, t), m) == Int32At(d, m)
  {
    ReadBeside(d, k, t, m, 4);
  }

  lemma Int32Back(d: seq<byte>, k: nat, v: int32)
    requires k + 4 <= |d|
    ensures Int32At(Write(d, k, Encode(v)), k) == v
  {
    ReadBack(d, k, Encode(v));
    DecodeEncode(v);
  }

  // ----- On arrays -----

  method PutBytes(a: array<byte>, k: nat, t: seq<byte>)
    requires k + |t| <= a.Length
    modifies a
    ensures a[..] == Write(old(a[..]), k, t)
  {
    var n := 0;
    while n < |t|
      invariant n <= |t|
      invariant forall x :: 0 <= x < a.Length ==> a[x] == if k <= x < k + n then t[x - k] else old(a[x])
    {
      a[k + n] := t[n];
      n := n + 1;
    }
  }

  // Copies a run of bytes that may overlap its target.
  method MemMove(a: array<byte>, dst: nat, src: nat, n: nat)
    requires dst + n <= a.Length && src + n <= a.Length
    modifies a
    ensures a[..] == Write(old(a[..]), dst, old(a[src..src + n]))
  {
    ghost var d, t := a[..], a[src..src + n];
    if dst <= src { MoveDown(a, dst, src, n); } else { MoveUp(a, dst, src, n); }
    forall x | 0 <= x < a.Length
      ensures a[..][x] == Write(d, dst, t)[x]
    {
      WriteAt(d, dst, t, x);
    }
  }

  lemma WriteAt(d: seq<byte>, k: nat, t: seq<byte>, x: nat)
    requires k + |t| <= |d| && x < |d|
    ensures Write(d, k, t)[x] == if k <= x < k + |t| then t[x - k] else d[x]
  {
  }

  method MoveDown(a: array<byte>, dst: nat, src: nat, n: nat)
    requires dst <= src && src + n <= a.Length
    modifies a
    ensures forall x :: 0 <= x < a.Length ==> a[x] == if dst <= x < dst + n then old(a[x - dst + src]) else old(a[x])
  {
    var m := 0;
    while m < n
      invariant m <= n
      invariant forall x :: 0 <= x < a.Length ==> a[x] == if dst <= x < dst + m then old(a[x - dst + src]) else old(a[x])
    {
      a[dst + m] := a[src + m];
      m := m + 1;
    }
  }

  method MoveUp(a: array<byte>, dst: nat, src: nat, n: nat)
    requires src <= dst && dst + n <= a.Length
    modifies a
    ensures forall x :: 0 <= x < a.Length ==> a[x] == if dst <= x < dst + n then old(a[x - dst + src]) else old(a[x])
  {
    var m := n;
    while m > 0
      invariant 0 <= m <= n
      invariant forall x :: 0 <= x < a.Length ==> a[x] == if dst + m <= x < dst + n then old(a[x - dst + src]) else old(a[x])
    {
      m := m - 1;
      a[dst + m] := a[src + m];
    }
  }
}
