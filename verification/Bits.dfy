/** Bit strings, most significant bit first, and registers of a fixed width that are shifted but never masked. */
module Bits {

  function Pow2(k: nat): (p: nat)
    ensures p >= 1
  {
    if k == 0 then 1 else 2 * Pow2(k - 1)
  }

  /** The low `k` bits of `v`. */
  function BitsOf(v: nat, k: nat): (bits: seq<bool>)
    ensures |bits| == k
  {
    if k == 0 then [] else BitsOf(v / 2, k - 1) + [v % 2 == 1]
  }

  function ValueOf(bits: seq<bool>): nat {
    if bits == [] then 0 else 2 * ValueOf(bits[..|bits| - 1]) + (if bits[|bits| - 1] then 1 else 0)
  }

  function Zeros(k: nat): (bits: seq<bool>)
    ensures |bits| == k
  {
    seq(k, _ => false)
  }

  // ----- registers -----

  /** `(v << k) | w` in a register of `width` bits: what is shifted past the top is lost. */
  function ShiftIn(v: nat, k: nat, w: nat, width: nat): (r: nat)
    ensures r < Pow2(width)
  {
    (v * Pow2(k) + w) % Pow2(width)
  }

  /** `v` shifted down by `j`, `v >>> j`. */
  function ShiftedDown(v: nat, j: nat): nat {
    if j == 0 then v else ShiftedDown(v / 2, j - 1)
  }

  /** `w` bits of a register, from bit `k` up: an unsigned shift and a mask. */
  function ReadOut(v: nat, k: nat, w: nat): (r: nat)
    ensures r < Pow2(w)
  {
    ShiftedDown(v, k) % Pow2(w)
  }

  // ----- arithmetic -----

  lemma MultiplesApart(d: int, a: int, b: int)
    requires a < b && d > 0
    ensures d * a + d <= d * b
  {
    assert d * b == d * a + d * (b - a);
    assert d * (b - a - 1) >= 0;
  }

  lemma QuotientUnique(d: int, q: int, r: int, q': int, r': int)
    requires d * q + r == d * q' + r' && 0 <= r < d && 0 <= r' < d
    ensures q == q' && r == r'
  {
    if q < q' {
      MultiplesApart(d, q, q');
    } else if q' < q {
      MultiplesApart(d, q', q);
    }
  }

  lemma DivModUnique(x: int, d: int, q: int, r: int)
    requires x == d * q + r && 0 <= r < d
    ensures x / d == q && x % d == r
  {
    QuotientUnique(d, q, r, x / d, x % d);
  }

  lemma Halved(v: nat, m: nat)
    requires m >= 1
    ensures v / (2 * m) == (v / 2) / m && v % (2 * m) == 2 * ((v / 2) % m) + v % 2
  {
    var q, r := (v / 2) / m, (v / 2) % m;
    assert v / 2 == m * q + r;
    assert v == (2 * m) * q + (2 * r + v % 2);
    DivModUnique(v, 2 * m, q, 2 * r + v % 2);
  }

  lemma HalvedRemainder(v: nat, m: nat)
    requires m >= 1
    ensures (v % (2 * m)) / 2 == (v / 2) % m && (v % (2 * m)) % 2 == v % 2
  {
    Halved(v, m);
  }

  // ----- bits and values -----

  lemma {:induction false} ValueOfBitsOf(v: nat, k: nat)
    ensures ValueOf(BitsOf(v, k)) == v % Pow2(k)
  {
    if k > 0 {
      ValueOfBitsOf(v / 2, k - 1);
      Halved(v, Pow2(k - 1));
      var bits := BitsOf(v, k);
      assert bits[..k - 1] == BitsOf(v / 2, k - 1);
    }
  }

  lemma {:induction false} BitsOfValueOf(bits: seq<bool>)
    ensures BitsOf(ValueOf(bits), |bits|) == bits && ValueOf(bits) < Pow2(|bits|)
  {
    if bits != [] {
      BitsOfValueOf(bits[..|bits| - 1]);
    }
  }

  lemma HalvedPower(v: nat, j: nat)
    requires j > 0
    ensures v / Pow2(j) == (v / 2) / Pow2(j - 1)
  {
    Halved(v, Pow2(j - 1));
  }

  lemma {:induction false} ShiftedDownDivides(v: nat, j: nat)
    ensures ShiftedDown(v, j) == v / Pow2(j)
  {
    if j > 0 {
      ShiftedDownDivides(v / 2, j - 1);
      HalvedPower(v, j);
    }
  }

  lemma {:induction false} SplitBits(v: nat, k: nat, j: nat)
    ensures BitsOf(v, k + j) == BitsOf(ShiftedDown(v, j), k) + BitsOf(v, j)
  {
    if j > 0 {
      SplitBits(v / 2, k, j - 1);
      assert BitsOf(v, k + j) == BitsOf(v / 2, k + j - 1) + [v % 2 == 1];
    }
  }

  lemma {:induction false} LowBits(v: nat, k: nat, m: nat)
    requires k <= m
    ensures BitsOf(v % Pow2(m), k) == BitsOf(v, k)
  {
    if k > 0 {
      HalvedRemainder(v, Pow2(m - 1));
      LowBits(v / 2, k - 1, m - 1);
    }
  }

  lemma {:induction false} PushedBits(x: nat, v: nat, k: nat, w: nat, j: nat)
    requires x == v * Pow2(j) + w && w < Pow2(j)
    ensures BitsOf(x, k + j) == BitsOf(v, k) + BitsOf(w, j)
  {
    DivModUnique(x, Pow2(j), v, w);
    ShiftedDownDivides(x, j);
    SplitBits(x, k, j);
    LowBits(x, j, j);
  }

  lemma {:induction false} ZeroBits(k: nat)
    ensures BitsOf(0, k) == Zeros(k)
  {
    if k > 0 {
      ZeroBits(k - 1);
    }
  }

  /** What a shift leaves in the register: the bits that were there, then the new ones. */
  lemma ShiftedIn(v: nat, held: nat, w: nat, k: nat, width: nat)
    requires w < Pow2(k) && held + k <= width
    ensures BitsOf(ShiftIn(v, k, w, width), held + k) == BitsOf(v, held) + BitsOf(w, k)
  {
    var x := v * Pow2(k) + w;
    LowBits(x, held + k, width);
    PushedBits(x, v, held, w, k);
  }

  lemma FirstBits(a: seq<bool>, b: seq<bool>)
    ensures (a + b)[..|a|] == a
  {
  }

  lemma MaskedBits(x: nat, w: nat)
    ensures BitsOf(x % Pow2(w), w) == BitsOf(x, w) && ValueOf(BitsOf(x, w)) == x % Pow2(w)
  {
    LowBits(x, w, w);
    ValueOfBitsOf(x, w);
  }

  /** What is read from the register: the first `w` of the bits it holds. */
  lemma {:induction false} ReadFrom(v: nat, held: nat, w: nat)
    requires w <= held
    ensures BitsOf(v, held) == BitsOf(ReadOut(v, held - w, w), w) + BitsOf(v, held - w)
    ensures ValueOf(BitsOf(v, held)[..w]) == ReadOut(v, held - w, w)
  {
    var x := ShiftedDown(v, held - w);
    SplitBits(v, w, held - w);
    MaskedBits(x, w);
    FirstBits(BitsOf(x, w), BitsOf(v, held - w));
  }

  /** A register that dropped its top bits agrees with exact, unbounded arithmetic on every bit read below its width. */
  lemma {:induction false} ReadsAgreeWithExact(exact: nat, k: nat, w: nat, width: nat)
    requires k + w <= width
    ensures ReadOut(exact % Pow2(width), k, w) == ReadOut(exact, k, w)
  {
    LowBits(exact, w + k, width);
    ReadFrom(exact, w + k, w);
    ReadFrom(exact % Pow2(width), w + k, w);
  }

  /** And it goes on holding the exact value, less its top bits, however often it is shifted. */
  lemma ShiftsAgreeWithExact(exact: nat, k: nat, w: nat, width: nat)
    ensures ShiftIn(exact % Pow2(width), k, w, width) == (exact * Pow2(k) + w) % Pow2(width)
  {
    RemainderThrough(exact, Pow2(width), Pow2(k), w);
  }

  lemma RemainderThrough(x: nat, p: nat, m: nat, w: nat)
    requires p >= 1
    ensures ((x % p) * m + w) % p == (x * m + w) % p
  {
    var q, low := x / p, x % p;
    var shifted := low * m + w;
    Distributes(p, q, low, m);
    Regrouped(p, q * m, shifted / p);
    DivModUnique(x * m + w, p, q * m + shifted / p, shifted % p);
  }

  lemma Regrouped(p: nat, a: nat, b: nat)
    ensures p * a + p * b == p * (a + b)
  {
  }

  lemma Distributes(p: nat, q: nat, low: nat, m: nat)
    ensures (p * q + low) * m == p * (q * m) + low * m
  {
  }
}
