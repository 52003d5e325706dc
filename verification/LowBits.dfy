/**
 Powers of two and the low bits of a number, by recursion over bits; `LowIsMod` and
 `BitIsDiv` tie them to division.
 */
module LowBits {

  function Pow2(n: nat): (p: nat)
    ensures p > 0
  {
    if n == 0 then 1 else 2 * Pow2(n - 1)
  }

  // Bit `d` of `x`.
  predicate Bit(x: nat, d: nat) {
    if d == 0 then x % 2 == 1 else Bit(x / 2, d - 1)
  }

  // The low `d` bits of `x`.
  function Low(x: nat, d: nat): (r: nat)
    ensures r < Pow2(d)
  {
    if d == 0 then 0 else x % 2 + 2 * Low(x / 2, d - 1)
  }

  // What is left of `x` without its low `d` bits.
  function High(x: nat, d: nat): nat {
    if d == 0 then x else High(x / 2, d - 1)
  }

  lemma AtLeastOnce(a: int, n: nat)
    requires a >= 1
    ensures a * n >= n
  {
  }

  lemma ModUnique(x: nat, n: nat, q: nat, r: nat)
    requires n > 0 && x == q * n + r && r < n
    ensures x % n == r && x / n == q
  {
    var q', r' := x / n, x % n;
    assert (q - q') * n == r' - r;
    assert (q' - q) * n == r - r';
    if q > q' {
      AtLeastOnce(q - q', n);
    } else if q < q' {
      AtLeastOnce(q' - q, n);
    }
  }

  lemma {:induction false} Parts(x: nat, d: nat)
    ensures x == High(x, d) * Pow2(d) + Low(x, d)
  {
    if d > 0 {
      Parts(x / 2, d - 1);
      PartsStep(x, High(x / 2, d - 1), Pow2(d - 1), Low(x / 2, d - 1));
    }
  }

  lemma PartsStep(x: nat, h: nat, p: nat, l: nat)
    requires x / 2 == h * p + l
    ensures x == h * (2 * p) + (x % 2 + 2 * l)
  {
    assert h * (2 * p) == 2 * (h * p);
  }

  /** The low bits are the remainder by a power of two. */
  lemma LowIsMod(x: nat, d: nat)
    ensures Low(x, d) == x % Pow2(d)
  {
    Parts(x, d);
    ModUnique(x, Pow2(d), High(x, d), Low(x, d));
  }

  /** Bit `d` is set when dividing by 2^d leaves an odd number. */
  lemma {:induction false} BitIsDiv(x: nat, d: nat)
    ensures Bit(x, d) <==> x / Pow2(d) % 2 == 1
  {
    Parts(x, d);
    ModUnique(x, Pow2(d), High(x, d), Low(x, d));
    BitHigh(x, d);
  }

  lemma {:induction false} BitHigh(x: nat, d: nat)
    ensures Bit(x, d) <==> High(x, d) % 2 == 1
  {
    if d > 0 {
      BitHigh(x / 2, d - 1);
    }
  }

  /** One more low bit. */
  lemma {:induction false} LowSucc(x: nat, d: nat)
    ensures Low(x, d + 1) == Low(x, d) + if Bit(x, d) then Pow2(d) else 0
  {
    if d > 0 {
      LowSucc(x / 2, d - 1);
    }
  }

  lemma {:induction false} LowLow(x: nat, d: nat, e: nat)
    requires d <= e
    ensures Low(Low(x, e), d) == Low(x, d)
  {
    if d > 0 {
      LowLow(x / 2, d - 1, e - 1);
    }
  }

  // Adding a higher power of two does not change the low bits.
  lemma {:induction false} LowAdd(x: nat, d: nat, e: nat)
    requires d <= e
    ensures Low(x + Pow2(e), d) == Low(x, d)
  {
    if d > 0 {
      assert (x + 2 * Pow2(e - 1)) / 2 == x / 2 + Pow2(e - 1);
      LowAdd(x / 2, d - 1, e - 1);
    }
  }

  lemma {:induction false} PowMono(d: nat, e: nat)
    requires d <= e
    ensures Pow2(d) <= Pow2(e)
    decreases e - d
  {
    if d < e {
      PowMono(d, e - 1);
    }
  }

  // Numbers below 2^d are their own low bits.
  lemma {:induction false} LowId(x: nat, d: nat)
    requires x < Pow2(d)
    ensures Low(x, d) == x
  {
    if d > 0 {
      LowId(x / 2, d - 1);
    }
  }

  // Two numbers agree on d + 1 low bits when they agree on d of them and on bit d.
  lemma LowSuccSame(x: nat, y: nat, d: nat)
    ensures Low(x, d + 1) == Low(y, d + 1) <==> Low(x, d) == Low(y, d) && (Bit(x, d) <==> Bit(y, d))
  {
    LowSucc(x, d);
    LowSucc(y, d);
  }
}
