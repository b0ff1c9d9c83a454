/** KLEE's symbolic expressions and their value under an assignment of bytes to symbolic arrays. */
module Expressions {
  import opened Words

  type Byte = b: Bits | |b| == 8 witness [false, false, false, false, false, false, false, false]

  const BOOL: nat := 1
  const INT8: nat := 8
  const INT32: nat := 32

  const ZERO_BYTE: Byte := [false, false, false, false, false, false, false, false]

  /** A named array of bytes; constant if it carries its initial contents, symbolic otherwise. */
  datatype Array = Array(name: string, size: nat, constantValues: seq<Byte>)
  {
    predicate IsConstantArray() { constantValues != [] }
  }

  datatype BinOp =
    | Add | Sub | Mul | UDiv | SDiv | URem | SRem
    | And | Or | Xor | Shl | LShr | AShr
    | Eq | Ult | Ule | Slt | Sle
  {
    predicate IsCmp() { Eq? || Ult? || Ule? || Slt? || Sle? }
  }

  datatype Expr =
    | Const(bits: Bits)
    | NotOptimized(src: Expr)
    | Read(root: Array, head: UpdateNode, index: Expr)
    | Select(cond: Expr, trueExpr: Expr, falseExpr: Expr)
    | Concat(left: Expr, right: Expr)
    | Extract(expr: Expr, offset: nat, width: nat)
    | ZExt(src: Expr, width: nat)
    | SExt(src: Expr, width: nat)
    | NotE(src: Expr)
    | Bin(op: BinOp, l: Expr, r: Expr)

  /** The byte writes laid over an array, most recent first. */
  datatype UpdateNode = NoUpdate | Update(next: UpdateNode, idx: Expr, value: Expr)

  function Width(e: Expr): nat {
    match e
    case Const(bits) => |bits|
    case NotOptimized(src) => Width(src)
    case Read(_, _, _) => INT8
    case Select(_, t, _) => Width(t)
    case Concat(l, r) => Width(l) + Width(r)
    case Extract(_, _, w) => w
    case ZExt(_, w) => w
    case SExt(_, w) => w
    case NotE(src) => Width(src)
    case Bin(op, l, _) => if op.IsCmp() then BOOL else Width(l)
  }

  /** The width rules that the constructors assert. */
  predicate WellTyped(e: Expr) {
    match e
    case Const(bits) => |bits| > 0
    case NotOptimized(src) => WellTyped(src)
    case Read(root, head, index) =>
      (root.IsConstantArray() ==> |root.constantValues| == root.size) && UpdatesTyped(head) && WellTyped(index)
    case Select(c, t, f) =>
      WellTyped(c) && Width(c) == BOOL && WellTyped(t) && WellTyped(f) && Width(t) == Width(f)
    case Concat(l, r) => WellTyped(l) && WellTyped(r)
    case Extract(x, off, w) => WellTyped(x) && w > 0 && off + w <= Width(x)
    case ZExt(x, w) => WellTyped(x) && Width(x) <= w
    case SExt(x, w) => WellTyped(x) && Width(x) <= w
    case NotE(x) => WellTyped(x)
    case Bin(_, l, r) => WellTyped(l) && WellTyped(r) && Width(l) == Width(r)
  }

  predicate UpdatesTyped(u: UpdateNode) {
    match u
    case NoUpdate => true
    case Update(next, i, v) => UpdatesTyped(next) && WellTyped(i) && WellTyped(v) && Width(v) == INT8
  }

  /** Bytes for the symbolic arrays; anything not bound is zero. */
  type Assignment = map<Array, seq<Byte>>

  function Lookup(a: Assignment, arr: Array, i: nat): Byte {
    if arr in a && i < |a[arr]| then a[arr][i] else ZERO_BYTE
  }

  function InitialByte(root: Array, i: nat, a: Assignment): Byte {
    if i < |root.constantValues| then root.constantValues[i] else Lookup(a, root, i)
  }

  function ToInt(b: Bits): int {
    if b != [] && b[|b| - 1] then ToNat(b) - Pow2(|b|) else ToNat(b)
  }

  function Magnitude(x: int): nat {
    if x < 0 then -x else x
  }

  /** Quotients truncate toward zero. Division by zero has no value in KLEE; here it keeps the dividend and has no
      remainder, which is what the constructors for booleans take for granted. */
  function Quotient(x: int, y: int): int {
    if y == 0 then x
    else if (x < 0) == (y < 0) then Magnitude(x) / Magnitude(y)
    else -(Magnitude(x) / Magnitude(y))
  }

  function Remainder(x: int, y: int): int {
    if y == 0 then 0 else x - y * Quotient(x, y)
  }

  // ----- signed values

  lemma TopBit(b: Bits)
    requires b != []
    ensures Pow2(|b|) == 2 * Pow2(|b| - 1)
    ensures if b[|b| - 1] then Pow2(|b| - 1) <= ToNat(b) < Pow2(|b|) else ToNat(b) < Pow2(|b| - 1)
  {
    var n := |b| - 1;
    assert ToNat([b[n]]) == if b[n] then 1 else 0;
    assert b == b[..n] + [b[n]];
    ToNatJoined(b[..n], [b[n]]);
  }

  /** A word is the bits of its signed value, which is negative exactly if the highest bit is set. */
  lemma SignedValue(b: Bits)
    requires b != []
    ensures -(Pow2(|b| - 1) as int) <= ToInt(b) < Pow2(|b| - 1) && FromInt(ToInt(b), |b|) == b
    ensures ToInt(b) < 0 <==> b[|b| - 1]
  {
    hide Pow2, ToNat, FromInt;
    TopBit(b);
    FromToNat(b);
    FromIntPeriod(ToInt(b), |b|);
  }

  lemma LessOne(m: int, n: int)
    ensures m * (n - 1) == m * n - m
  {
  }

  lemma SignExtended(x: Bits, w: nat)
    requires 0 < |x| <= w
    ensures ToInt(SignExtend(x, w)) == ToInt(x)
  {
    hide Pow2, ToNat;
    var k := w - |x|;
    if x[|x| - 1] {
      ToNatJoined(x, Ones(k));
      ToNatOnes(k);
      Pow2Sum(|x|, k);
      LessOne(Pow2(|x|), Pow2(k));
    } else {
      ToNatZeroExtended(x, k);
    }
  }

  lemma Signs(d: int, q: int)
    ensures d * -q == -(d * q) == -d * q && -d * -q == d * q
  {
  }

  lemma RemainderOf(x: int, y: int)
    requires y != 0
    ensures Remainder(x, y) == x - y * Quotient(x, y)
    ensures Remainder(x, y) == if x < 0 then -(Magnitude(x) % Magnitude(y)) else Magnitude(x) % Magnitude(y)
  {
    var n, d := Magnitude(x), Magnitude(y);
    var q: int := n / d;
    assert n == d * q + n % d;
    assert Quotient(x, y) == if (x < 0) == (y < 0) then q else -q;
    assert Remainder(x, y) == x - y * Quotient(x, y);
    hide Quotient, Remainder;
    Signs(y, q);
  }

  /** Division truncates toward zero: the remainder is smaller than the divisor and has the sign of the dividend. */
  lemma Truncates(x: int, y: int)
    requires y != 0
    ensures x == y * Quotient(x, y) + Remainder(x, y)
    ensures Magnitude(Remainder(x, y)) < Magnitude(y)
    ensures Remainder(x, y) > 0 ==> x > 0
    ensures Remainder(x, y) < 0 ==> x < 0
  {
    hide Quotient, Remainder;
    RemainderOf(x, y);
    var r := Magnitude(x) % Magnitude(y);
    assert 0 <= r < Magnitude(y);
    if x == 0 { assert r == 0; }
  }

  function Arith(op: BinOp, x: Bits, y: Bits): (r: Bits)
    ensures |r| == |x|
  {
    var v := match op
      case Mul => ToNat(x) * ToNat(y)
      case UDiv => Quotient(ToNat(x), ToNat(y))
      case SDiv => Quotient(ToInt(x), ToInt(y))
      case URem => Remainder(ToNat(x), ToNat(y))
      case SRem => Remainder(ToInt(x), ToInt(y))
      case Shl => ToNat(x) * Pow2(ToNat(y))
      case LShr => ToNat(x) / Pow2(ToNat(y))
      case _ => ToInt(x) / Pow2(ToNat(y));
    FromInt(v, |x|)
  }

  function Apply(op: BinOp, x: Bits, y: Bits): (r: Bits)
    requires |x| == |y|
    ensures |r| == if op.IsCmp() then BOOL else |x|
  {
    match op
    case Add => Words.Add(x, y)
    case Sub => Words.Sub(x, y)
    case And => Words.And(x, y)
    case Or => Words.Or(x, y)
    case Xor => Words.Xor(x, y)
    case Eq => [x == y]
    case Ult => [ToNat(x) < ToNat(y)]
    case Ule => [ToNat(x) <= ToNat(y)]
    case Slt => [ToInt(x) < ToInt(y)]
    case Sle => [ToInt(x) <= ToInt(y)]
    case _ => Arith(op, x, y)
  }

  function Eval(e: Expr, a: Assignment): (r: Bits)
    requires WellTyped(e)
    ensures |r| == Width(e)
  {
    match e
    case Const(bits) => bits
    case NotOptimized(src) => Eval(src, a)
    case Read(root, head, index) =>
      var i := ToNat(Eval(index, a));
      EvalRead(head, i, InitialByte(root, i, a), a)
    case Select(c, t, f) => if Eval(c, a)[0] then Eval(t, a) else Eval(f, a)
    case Concat(l, r) => Eval(r, a) + Eval(l, a)
    case Extract(x, off, w) => Eval(x, a)[off..off + w]
    case ZExt(x, w) => Eval(x, a) + Zeros(w - Width(x))
    case SExt(x, w) => SignExtend(Eval(x, a), w)
    case NotE(x) => Words.Not(Eval(x, a))
    case Bin(op, l, r) => Apply(op, Eval(l, a), Eval(r, a))
  }

  /** The byte at index `i`: the most recent write there, else `init`. */
  function EvalRead(u: UpdateNode, i: nat, init: Byte, a: Assignment): (r: Byte)
    requires UpdatesTyped(u)
  {
    match u
    case NoUpdate => init
    case Update(next, idx, v) =>
      if ToNat(Eval(idx, a)) == i then Eval(v, a) else EvalRead(next, i, init, a)
  }

  /** Both expressions have the same width, and the same value under `a`. */
  predicate Same(e: Expr, f: Expr, a: Assignment) {
    WellTyped(e) && WellTyped(f) && Width(e) == Width(f) && Eval(e, a) == Eval(f, a)
  }

  // One-step unfoldings, for proofs that hide Eval.

  lemma EvalConst(bits: Bits, a: Assignment)
    requires |bits| > 0
    ensures Eval(Const(bits), a) == bits
  {
  }

  lemma EvalBin(op: BinOp, l: Expr, r: Expr, a: Assignment)
    requires WellTyped(l) && WellTyped(r) && Width(l) == Width(r)
    ensures Eval(Bin(op, l, r), a) == Apply(op, Eval(l, a), Eval(r, a))
  {
  }

  lemma EvalSelect(c: Expr, t: Expr, f: Expr, a: Assignment)
    requires WellTyped(c) && Width(c) == BOOL && WellTyped(t) && WellTyped(f) && Width(t) == Width(f)
    ensures Eval(Select(c, t, f), a) == if Eval(c, a)[0] then Eval(t, a) else Eval(f, a)
  {
  }

  lemma EvalConcat(l: Expr, r: Expr, a: Assignment)
    requires WellTyped(l) && WellTyped(r)
    ensures Eval(Concat(l, r), a) == Eval(r, a) + Eval(l, a)
  {
  }

  lemma EvalExtract(x: Expr, off: nat, w: nat, a: Assignment)
    requires WellTyped(x) && w > 0 && off + w <= Width(x)
    ensures Eval(Extract(x, off, w), a) == Eval(x, a)[off..off + w]
  {
  }

  lemma EvalZExt(x: Expr, w: nat, a: Assignment)
    requires WellTyped(x) && Width(x) <= w
    ensures Eval(ZExt(x, w), a) == Eval(x, a) + Zeros(w - Width(x))
  {
  }

  lemma EvalSExt(x: Expr, w: nat, a: Assignment)
    requires WellTyped(x) && Width(x) <= w
    ensures Eval(SExt(x, w), a) == SignExtend(Eval(x, a), w)
  {
  }

  predicate Holds(c: Expr, a: Assignment)
    requires WellTyped(c) && Width(c) == BOOL
  {
    Eval(c, a)[0]
  }

  /** ConstantExpr::create(n, w). */
  function ConstOf(n: nat, w: nat): (e: Expr)
    requires w > 0
    ensures e.Const? && WellTyped(e) && Width(e) == w
    ensures n < Pow2(w) ==> ToNat(e.bits) == n
  {
    Const(FromInt(n, w))
  }
}
