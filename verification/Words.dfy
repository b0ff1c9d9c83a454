/** Machine words of any width, as sequences of bits with the least significant bit first.
    Extraction is then a slice and concatenation an append; only addition, subtraction and the
    comparisons go through the numeric value. */
module Words {
  type Bits = seq<bool>

  function Pow2(n: nat): (p: nat)
    ensures p > 0
  {
    if n == 0 then 1 else 2 * Pow2(n - 1)
  }

  function ToNat(b: Bits): (n: nat)
    ensures n < Pow2(|b|)
  {
    if b == [] then 0 else (if b[0] then 1 else 0) + 2 * ToNat(b[1..])
  }

  /** The low `w` bits of `n` in two's complement. */
  function FromInt(n: int, w: nat): (b: Bits)
    ensures |b| == w
    ensures 0 <= n < Pow2(w) ==> ToNat(b) == n
    decreases w
  {
    if w == 0 then [] else [n % 2 == 1] + FromInt(n / 2, w - 1)
  }

  function Zeros(w: nat): (b: Bits)
    ensures |b| == w && forall i :: 0 <= i < w ==> !b[i]
  {
    seq(w, _ => false)
  }

  function Ones(w: nat): (b: Bits)
    ensures |b| == w && forall i :: 0 <= i < w ==> b[i]
  {
    seq(w, _ => true)
  }

  // ----- numeric value

  lemma {:induction false} FromToNat(b: Bits)
    ensures FromInt(ToNat(b), |b|) == b
  {
    if b == [] {
    } else {
      FromToNat(b[1..]);
    }
  }

  /** Words of one width are equal as soon as their values are. */
  lemma ToNatInjective(b: Bits, c: Bits)
    requires |b| == |c| && ToNat(b) == ToNat(c)
    ensures b == c
  {
    FromToNat(b);
    FromToNat(c);
  }

  /** Words repeat with period 2^w. */
  lemma {:induction false} FromIntPeriod(n: int, w: nat)
    ensures FromInt(n + Pow2(w), w) == FromInt(n, w)
    decreases w
  {
    if w == 0 {
    } else {
      FromIntPeriod(n / 2, w - 1);
    }
  }

  /** The lowest bit of a word, and the others. */
  lemma FromIntStep(n: int, m: int, w: nat)
    requires w > 0
    ensures FromInt(n + 2 * m, w) == [n % 2 == 1] + FromInt(n / 2 + m, w - 1)
    ensures ToNat(FromInt(n, w)) == n % 2 + 2 * ToNat(FromInt(n / 2, w - 1))
  {
    hide Pow2;
    assert (n + 2 * m) / 2 == n / 2 + m;
  }

  /** Truncating a summand first does not change a truncated sum. */
  lemma {:induction false} AddTruncated(n: int, m: int, w: nat)
    ensures FromInt(ToNat(FromInt(n, w)) + m, w) == FromInt(n + m, w)
    decreases w
  {
    hide FromInt, ToNat, Pow2;
    if w == 0 {
    } else {
      var h := n % 2 + m;
      FromIntStep(n, 0, w);
      FromIntStep(h, n / 2, w);
      FromIntStep(h, ToNat(FromInt(n / 2, w - 1)), w);
      AddTruncated(n / 2, h / 2, w - 1);
    }
  }

  /** Truncating a subtrahend first does not change a truncated difference. */
  lemma {:induction false} SubTruncated(m: int, n: int, w: nat)
    ensures FromInt(m - ToNat(FromInt(n, w)), w) == FromInt(m - n, w)
    decreases w
  {
    hide FromInt, ToNat, Pow2;
    if w == 0 {
    } else {
      var h := m - n % 2;
      FromIntStep(n, 0, w);
      FromIntStep(h, -(n / 2), w);
      FromIntStep(h, -(ToNat(FromInt(n / 2, w - 1)) as int), w);
      SubTruncated(h / 2, n / 2, w - 1);
    }
  }

  lemma {:induction false} ToNatZeros(w: nat)
    ensures ToNat(Zeros(w)) == 0
  {
    if w > 0 {
      assert Zeros(w)[1..] == Zeros(w - 1);
      ToNatZeros(w - 1);
    }
  }

  lemma {:induction false} ToNatZeroExtended(b: Bits, k: nat)
    ensures ToNat(b + Zeros(k)) == ToNat(b)
  {
    if b == [] {
      assert b + Zeros(k) == Zeros(k);
      ToNatZeros(k);
    } else {
      assert (b + Zeros(k))[1..] == b[1..] + Zeros(k);
      ToNatZeroExtended(b[1..], k);
    }
  }

  lemma {:induction false} ToNatOnes(w: nat)
    ensures ToNat(Ones(w)) == Pow2(w) - 1
  {
    if w > 0 {
      assert Ones(w)[1..] == Ones(w - 1);
      ToNatOnes(w - 1);
    }
  }

  lemma {:induction false} Pow2Sum(m: nat, n: nat)
    ensures Pow2(m + n) == Pow2(m) * Pow2(n)
  {
    if m > 0 {
      Pow2Sum(m - 1, n);
    }
  }

  lemma Doubled(m: nat, n: nat)
    ensures 2 * (m * n) == 2 * m * n
  {
  }

  /** The word appended holds the high bits. */
  lemma {:induction false} ToNatJoined(x: Bits, y: Bits)
    ensures ToNat(x + y) == ToNat(x) + Pow2(|x|) * ToNat(y)
  {
    if x == [] {
      assert x + y == y;
    } else {
      assert ToNat(x + y) == (if x[0] then 1 else 0) + 2 * ToNat(x[1..] + y) by {
        assert (x + y)[1..] == x[1..] + y;
      }
      assert ToNat(x) == (if x[0] then 1 else 0) + 2 * ToNat(x[1..]) && Pow2(|x|) == 2 * Pow2(|x[1..]|);
      hide ToNat, Pow2;
      ToNatJoined(x[1..], y);
      Doubled(Pow2(|x[1..]|), ToNat(y));
    }
  }

  // ----- word operations

  function Add(x: Bits, y: Bits): (r: Bits)
    ensures |r| == |x|
  {
    FromInt(ToNat(x) + ToNat(y), |x|)
  }

  function Sub(x: Bits, y: Bits): (r: Bits)
    ensures |r| == |x|
  {
    FromInt(ToNat(x) - ToNat(y), |x|)
  }

  function And(x: Bits, y: Bits): (r: Bits)
    requires |y| == |x|
    ensures |r| == |x|
  {
    seq(|x|, i requires 0 <= i < |x| => x[i] && y[i])
  }

  function Or(x: Bits, y: Bits): (r: Bits)
    requires |y| == |x|
    ensures |r| == |x|
  {
    seq(|x|, i requires 0 <= i < |x| => x[i] || y[i])
  }

  function Xor(x: Bits, y: Bits): (r: Bits)
    requires |y| == |x|
    ensures |r| == |x|
  {
    seq(|x|, i requires 0 <= i < |x| => x[i] != y[i])
  }

  function Not(x: Bits): (r: Bits)
    ensures |r| == |x|
  {
    seq(|x|, i requires 0 <= i < |x| => !x[i])
  }

  /** Sign extension to `w` bits. */
  function SignExtend(x: Bits, w: nat): (r: Bits)
    requires |x| <= w
    ensures |r| == w && r[..|x|] == x
  {
    x + if x != [] && x[|x| - 1] then Ones(w - |x|) else Zeros(w - |x|)
  }

  /** The complement counts down from the highest word. */
  lemma {:induction false} ToNatNot(x: Bits)
    ensures ToNat(Not(x)) == Pow2(|x|) - 1 - ToNat(x)
  {
    if x != [] {
      assert Not(x)[1..] == Not(x[1..]);
      ToNatNot(x[1..]);
    }
  }

  lemma AndFacts(x: Bits, y: Bits)
    requires |x| == |y|
    ensures And(x, y) == And(y, x)
    ensures y == Ones(|y|) ==> And(x, y) == x
    ensures y == Zeros(|y|) ==> And(x, y) == y
  {
  }

  lemma OrFacts(x: Bits, y: Bits)
    requires |x| == |y|
    ensures Or(x, y) == Or(y, x)
    ensures y == Ones(|y|) ==> Or(x, y) == y
    ensures y == Zeros(|y|) ==> Or(x, y) == x
  {
  }

  // ----- the algebra that the expression rewrites rely on

  lemma AddZero(z: Bits, x: Bits)
    requires |x| == |z| && ToNat(z) == 0
    ensures Add(z, x) == x
  {
    FromToNat(x);
  }

  lemma AddAssoc(x: Bits, y: Bits, z: Bits)
    requires |x| == |y| == |z|
    ensures Add(Add(x, y), z) == Add(x, Add(y, z))
  {
    hide FromInt, ToNat, Pow2;
    AddTruncated(ToNat(x) + ToNat(y), ToNat(z), |x|);
    AddTruncated(ToNat(y) + ToNat(z), ToNat(x), |x|);
  }

  /** a + (b - x) == (a + b) - x */
  lemma AddSubAssoc(x: Bits, y: Bits, z: Bits)
    requires |x| == |y| == |z|
    ensures Add(x, Sub(y, z)) == Sub(Add(x, y), z)
  {
    hide FromInt, ToNat, Pow2;
    AddTruncated(ToNat(y) - ToNat(z), ToNat(x), |x|);
    AddTruncated(ToNat(x) + ToNat(y), 0 - ToNat(z), |x|);
  }

  /** a - (b + x) == (a - b) - x */
  lemma SubAddAssoc(x: Bits, y: Bits, z: Bits)
    requires |x| == |y| == |z|
    ensures Sub(x, Add(y, z)) == Sub(Sub(x, y), z)
  {
    hide FromInt, ToNat, Pow2;
    SubTruncated(ToNat(x), ToNat(y) + ToNat(z), |x|);
    AddTruncated(ToNat(x) - ToNat(y), 0 - ToNat(z), |x|);
  }

  /** a - (b - x) == (a - b) + x */
  lemma SubSubAssoc(x: Bits, y: Bits, z: Bits)
    requires |x| == |y| == |z|
    ensures Sub(x, Sub(y, z)) == Add(Sub(x, y), z)
  {
    hide FromInt, ToNat, Pow2;
    SubTruncated(ToNat(x), ToNat(y) - ToNat(z), |x|);
    AddTruncated(ToNat(x) - ToNat(y), ToNat(z), |x|);
  }

  /** k + x == c exactly when x == c - k */
  lemma AddSolve(k: Bits, x: Bits, c: Bits)
    requires |k| == |x| == |c|
    ensures Add(k, x) == c <==> x == Sub(c, k)
  {
    hide FromInt, ToNat, Pow2;
    AddTruncated(ToNat(k) + ToNat(x), 0 - ToNat(k), |x|);
    AddTruncated(ToNat(c) - ToNat(k), ToNat(k), |x|);
    FromToNat(x);
    FromToNat(c);
  }

  /** k - x == c exactly when x == k - c */
  lemma SubSolve(k: Bits, x: Bits, c: Bits)
    requires |k| == |x| == |c|
    ensures Sub(k, x) == c <==> x == Sub(k, c)
  {
    hide FromInt, ToNat, Pow2;
    SubTruncated(ToNat(k), ToNat(k) - ToNat(x), |x|);
    SubTruncated(ToNat(k), ToNat(k) - ToNat(c), |x|);
    FromToNat(x);
    FromToNat(c);
  }

  /** l - c == (0 - c) + l */
  lemma SubAsAdd(l: Bits, c: Bits)
    requires |l| == |c|
    ensures Sub(l, c) == Add(Sub(Zeros(|c|), c), l)
  {
    hide FromInt, ToNat, Pow2;
    ToNatZeros(|c|);
    AddTruncated(0 - ToNat(c), ToNat(l), |c|);
  }
}
