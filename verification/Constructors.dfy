/** The remaining constructors of KLEE's expressions, one dispatch over all of them, and the rebuilding of a node over new
    operands: each builds an expression with the meaning of the node it stands for. */
module Constructors {
  import opened Words
  import opened Expressions
  import opened ExprBuilder

  // ----- Add and Sub

  predicate IsOffset(op: BinOp, e: Expr) { e.Bin? && e.op == op && e.l.Const? }

  /** How many constants can still be pulled out of a sum. */
  function Offsets(e: Expr): nat {
    if IsOffset(Add, e) || IsOffset(Sub, e) then 1 + Offsets(e.r) else 0
  }

  /** AddExpr::create: constants move to the left. */
  function CreateAdd(l: Expr, r: Expr): (e: Expr)
    requires WellTyped(l) && WellTyped(r) && Width(l) == Width(r) > 0
    ensures WellTyped(e) && Width(e) == Width(l)
    decreases Offsets(l) + Offsets(r)
  {
    if l.Const? then AddConst(l.bits, r)
    else if r.Const? then AddConst(r.bits, l)
    else if Width(l) == BOOL then Bin(Xor, l, r)
    else if IsOffset(Add, l) then AddConst(l.l.bits, CreateAdd(l.r, r))
    else if IsOffset(Sub, l) then AddConst(l.l.bits, CreateSub(r, l.r))
    else if IsOffset(Add, r) then AddConst(r.l.bits, CreateAdd(l, r.r))
    else if IsOffset(Sub, r) then AddConst(r.l.bits, CreateSub(l, r.r))
    else Bin(Add, l, r)
  }

  /** SubExpr::create: constants move to the left, and what is taken from itself is zero. */
  function CreateSub(l: Expr, r: Expr): (e: Expr)
    requires WellTyped(l) && WellTyped(r) && Width(l) == Width(r) > 0
    ensures WellTyped(e) && Width(e) == Width(l)
    decreases Offsets(l) + Offsets(r)
  {
    if l.Const? then SubConst(l.bits, r)
    else if r.Const? then CreateSubConst(l, r.bits)
    else if Width(l) == BOOL then Bin(Xor, l, r)
    else if l == r then Const(Zeros(Width(l)))
    else if IsOffset(Add, l) then AddConst(l.l.bits, CreateSub(l.r, r))
    else if IsOffset(Sub, l) then SubConst(l.l.bits, CreateAdd(l.r, r))
    else if IsOffset(Add, r) then CreateSubConst(CreateSub(l, r.r), r.l.bits)
    else if IsOffset(Sub, r) then CreateSubConst(CreateAdd(l, r.r), r.l.bits)
    else Bin(Sub, l, r)
  }

  /** A sum and a difference with a truncated word. */
  lemma Truncated(x: Bits, m: int)
    ensures Words.Add(FromInt(m, |x|), x) == Words.Add(x, FromInt(m, |x|)) == FromInt(m + ToNat(x), |x|)
    ensures Words.Sub(FromInt(m, |x|), x) == FromInt(m - ToNat(x), |x|)
    ensures Words.Sub(x, FromInt(m, |x|)) == FromInt(ToNat(x) - m, |x|)
  {
    hide FromInt, ToNat, Pow2;
    AddTruncated(m, ToNat(x), |x|);
    AddTruncated(m, 0 - ToNat(x), |x|);
    SubTruncated(ToNat(x), m, |x|);
  }

  lemma AddCommutes(x: Bits, y: Bits)
    requires |x| == |y|
    ensures Words.Add(x, y) == Words.Add(y, x)
  {
  }

  /** A sum taken apart, with the constant `k` pulled out. */
  lemma RegroupAdd(k: Bits, x: Bits, y: Bits)
    requires |k| == |x| == |y|
    ensures Words.Add(Words.Add(k, x), y) == Words.Add(k, Words.Add(x, y))
    ensures Words.Sub(Words.Add(k, x), y) == Words.Add(k, Words.Sub(x, y))
  {
    hide FromInt, ToNat, Pow2;
    Truncated(y, ToNat(k) + ToNat(x));
    Truncated(k, ToNat(x) + ToNat(y));
    Truncated(k, ToNat(x) - ToNat(y));
  }

  /** A difference taken apart, with the constant `k` pulled out. */
  lemma RegroupSub(k: Bits, x: Bits, y: Bits)
    requires |k| == |x| == |y|
    ensures Words.Add(Words.Sub(k, x), y) == Words.Add(k, Words.Sub(y, x))
    ensures Words.Sub(Words.Sub(k, x), y) == Words.Sub(k, Words.Add(x, y))
  {
    hide FromInt, ToNat, Pow2;
    Truncated(y, ToNat(k) - ToNat(x));
    Truncated(k, ToNat(y) - ToNat(x));
    Truncated(k, ToNat(x) + ToNat(y));
  }

  /** What is taken away is itself a sum or a difference with the constant `k`. */
  lemma RegroupTaken(k: Bits, x: Bits, y: Bits)
    requires |k| == |x| == |y|
    ensures Words.Sub(x, Words.Add(k, y)) == Words.Sub(Words.Sub(x, y), k)
    ensures Words.Sub(x, Words.Sub(k, y)) == Words.Sub(Words.Add(x, y), k)
  {
    hide FromInt, ToNat, Pow2;
    SubTruncated(ToNat(x), ToNat(k) + ToNat(y), |x|);
    SubTruncated(ToNat(x), ToNat(k) - ToNat(y), |x|);
    AddTruncated(ToNat(x) - ToNat(y), 0 - ToNat(k), |x|);
    AddTruncated(ToNat(x) + ToNat(y), 0 - ToNat(k), |x|);
  }

  lemma SubItself(x: Bits)
    ensures Words.Sub(x, x) == Zeros(|x|)
  {
    ToNatZeros(|x|);
    FromToNat(Zeros(|x|));
  }

  lemma OffsetValue(e: Expr, a: Assignment)
    requires WellTyped(e) && (IsOffset(Add, e) || IsOffset(Sub, e))
    ensures Eval(e, a) == if e.op.Add? then Words.Add(e.l.bits, Eval(e.r, a)) else Words.Sub(e.l.bits, Eval(e.r, a))
  {
  }

  lemma {:induction false} AddSound(l: Expr, r: Expr, a: Assignment)
    requires WellTyped(l) && WellTyped(r) && Width(l) == Width(r) > 0
    ensures Eval(CreateAdd(l, r), a) == Words.Add(Eval(l, a), Eval(r, a))
    decreases Offsets(l) + Offsets(r)
  {
    hide Eval, AddConst, CreateSub, Words.Add, Words.Sub;
    var x, y := Eval(l, a), Eval(r, a);
    AddCommutes(x, y);
    if l.Const? {
      EvalConst(l.bits, a);
      AddConstSound(l.bits, r, a);
    } else if r.Const? {
      EvalConst(r.bits, a);
      AddConstSound(r.bits, l, a);
    } else if Width(l) == BOOL {
      EvalBin(Xor, l, r, a);
      OneBit(x, y);
    } else if IsOffset(Add, l) {
      OffsetValue(l, a);
      RegroupAdd(l.l.bits, Eval(l.r, a), y);
      AddSound(l.r, r, a);
      AddConstSound(l.l.bits, CreateAdd(l.r, r), a);
    } else if IsOffset(Sub, l) {
      OffsetValue(l, a);
      RegroupSub(l.l.bits, Eval(l.r, a), y);
      SubSound(r, l.r, a);
      AddConstSound(l.l.bits, CreateSub(r, l.r), a);
    } else if IsOffset(Add, r) {
      OffsetValue(r, a);
      AddCommutes(x, Eval(r.r, a));
      RegroupAdd(r.l.bits, Eval(r.r, a), x);
      AddSound(l, r.r, a);
      AddConstSound(r.l.bits, CreateAdd(l, r.r), a);
    } else if IsOffset(Sub, r) {
      OffsetValue(r, a);
      RegroupSub(r.l.bits, Eval(r.r, a), x);
      SubSound(l, r.r, a);
      AddConstSound(r.l.bits, CreateSub(l, r.r), a);
    } else {
      EvalBin(Add, l, r, a);
    }
  }

  lemma {:induction false} SubSound(l: Expr, r: Expr, a: Assignment)
    requires WellTyped(l) && WellTyped(r) && Width(l) == Width(r) > 0
    ensures Eval(CreateSub(l, r), a) == Words.Sub(Eval(l, a), Eval(r, a))
    decreases Offsets(l) + Offsets(r)
  {
    hide Eval, AddConst, SubConst, CreateSubConst, CreateAdd, Words.Add, Words.Sub;
    var x, y := Eval(l, a), Eval(r, a);
    if l.Const? {
      EvalConst(l.bits, a);
      SubConstSound(l.bits, r, a);
    } else if r.Const? {
      EvalConst(r.bits, a);
      SubFromSound(l, r.bits, a);
    } else if Width(l) == BOOL {
      EvalBin(Xor, l, r, a);
      OneBit(x, y);
    } else if l == r {
      EvalConst(Zeros(Width(l)), a);
      SubItself(x);
    } else if IsOffset(Add, l) {
      OffsetValue(l, a);
      RegroupAdd(l.l.bits, Eval(l.r, a), y);
      SubSound(l.r, r, a);
      AddConstSound(l.l.bits, CreateSub(l.r, r), a);
    } else if IsOffset(Sub, l) {
      OffsetValue(l, a);
      RegroupSub(l.l.bits, Eval(l.r, a), y);
      AddSound(l.r, r, a);
      SubConstSound(l.l.bits, CreateAdd(l.r, r), a);
    } else if IsOffset(Add, r) {
      OffsetValue(r, a);
      RegroupTaken(r.l.bits, x, Eval(r.r, a));
      SubSound(l, r.r, a);
      SubFromSound(CreateSub(l, r.r), r.l.bits, a);
    } else if IsOffset(Sub, r) {
      OffsetValue(r, a);
      RegroupTaken(r.l.bits, x, Eval(r.r, a));
      AddSound(l, r.r, a);
      SubFromSound(CreateAdd(l, r.r), r.l.bits, a);
    } else {
      EvalBin(Sub, l, r, a);
    }
  }

  // Arithmetic on one bit.

  lemma OneBitWord(n: int)
    ensures FromInt(n, 1) == [n % 2 == 1]
  {
    assert FromInt(n / 2, 0) == [];
  }

  lemma OneBitValues(x: Bits)
    requires |x| == 1
    ensures x == [x[0]] && ToNat(x) == (if x[0] then 1 else 0) && ToInt(x) == if x[0] then -1 else 0
  {
    OneBitValue(x);
  }

  lemma OneBitProducts(x: Bits, y: Bits)
    requires |x| == |y| == 1
    ensures Arith(Mul, x, y) == Words.And(x, y) == [x[0] && y[0]]
    ensures Arith(Shl, x, y) == Arith(LShr, x, y) == [x[0] && !y[0]]
    ensures Arith(AShr, x, y) == x
  {
    hide FromInt, ToNat, ToInt;
    OneBitValues(x);
    OneBitValues(y);
    assert Pow2(0) == 1 && Pow2(1) == 2;
    OneBitWord(0);
    OneBitWord(1);
    OneBitWord(-1);
    OneBitWord(2);
  }

  lemma OneBitQuotients(x: Bits, y: Bits)
    requires |x| == |y| == 1
    ensures Arith(UDiv, x, y) == Arith(SDiv, x, y) == x
    ensures Arith(URem, x, y) == Arith(SRem, x, y) == [false]
  {
    hide FromInt, ToNat, ToInt, Pow2;
    OneBitValues(x);
    OneBitValues(y);
    OneBitWord(0);
    OneBitWord(1);
    OneBitWord(-1);
  }

  lemma OneBitOrder(x: Bits, y: Bits)
    requires |x| == |y| == 1
    ensures (ToInt(x) < ToInt(y)) == (x[0] && !y[0]) && (ToInt(x) <= ToInt(y)) == (x[0] || !y[0])
  {
    OneBitValues(x);
    OneBitValues(y);
  }

  // ----- Mul and Xor

  /** MulExpr::create(c, r) for a constant c and an r that is none. */
  function MulConst(c: Bits, r: Expr): (e: Expr)
    requires WellTyped(r) && |c| == Width(r) > 0
    ensures WellTyped(e) && Width(e) == Width(r)
  {
    if |c| == BOOL then AndPartial(r, c)
    else if ToNat(c) == 1 then r
    else if c == Zeros(|c|) then Const(c)
    else Bin(Mul, Const(c), r)
  }

  function CreateMul(l: Expr, r: Expr): (e: Expr)
    requires WellTyped(l) && WellTyped(r) && Width(l) == Width(r) > 0
    ensures WellTyped(e) && Width(e) == Width(l)
  {
    if l.Const? && r.Const? then Const(Arith(Mul, l.bits, r.bits))
    else if l.Const? then MulConst(l.bits, r)
    else if r.Const? then MulConst(r.bits, l)
    else if Width(l) == BOOL then Bin(And, l, r)
    else Bin(Mul, l, r)
  }

  function CreateXor(l: Expr, r: Expr): (e: Expr)
    requires WellTyped(l) && WellTyped(r) && Width(l) == Width(r) > 0
    ensures WellTyped(e) && Width(e) == Width(l)
  {
    if l.Const? && r.Const? then Const(Words.Xor(l.bits, r.bits))
    else if l.Const? then XorConst(l.bits, r)
    else if r.Const? then XorConst(r.bits, l)
    else Bin(Xor, l, r)
  }

  lemma MulIs(x: Bits, y: Bits, n: nat)
    requires n == ToNat(x) * ToNat(y)
    ensures Arith(Mul, x, y) == FromInt(n, |x|)
  {
    hide Pow2, FromInt, ToNat;
  }

  lemma MulFacts(x: Bits, y: Bits)
    requires |x| == |y|
    ensures Arith(Mul, x, y) == Arith(Mul, y, x)
    ensures ToNat(x) == 1 ==> Arith(Mul, x, y) == y
    ensures x == Zeros(|x|) ==> Arith(Mul, x, y) == x
  {
    hide Pow2, FromInt, ToNat;
    hide Arith;
    var m, n := ToNat(x), ToNat(y);
    MulIs(x, y, m * n);
    MulIs(y, x, m * n);
    FromToNat(y);
    FromToNat(x);
    ToNatZeros(|x|);
  }

  lemma MulConstSound(c: Bits, r: Expr, a: Assignment)
    requires WellTyped(r) && |c| == Width(r) > 0
    ensures Eval(MulConst(c, r), a) == Arith(Mul, c, Eval(r, a))
  {
    hide Eval, Arith, ToNat, Words.And;
    var v := Eval(r, a);
    MulFacts(c, v);
    EvalConst(c, a);
    EvalBin(Mul, Const(c), r, a);
    if |c| == BOOL {
      OneBitProducts(c, v);
      EvalBin(And, r, Const(c), a);
      AndFacts(v, c);
      AndFacts(c, v);
    }
  }

  lemma MulSound(l: Expr, r: Expr, a: Assignment)
    requires WellTyped(l) && WellTyped(r) && Width(l) == Width(r) > 0
    ensures Eval(CreateMul(l, r), a) == Arith(Mul, Eval(l, a), Eval(r, a))
  {
    hide Eval, Arith, MulConst;
    var x, y := Eval(l, a), Eval(r, a);
    MulFacts(x, y);
    EvalBin(Mul, l, r, a);
    if l.Const? && r.Const? {
      EvalConst(l.bits, a);
      EvalConst(r.bits, a);
      EvalConst(Arith(Mul, l.bits, r.bits), a);
    } else if l.Const? {
      EvalConst(l.bits, a);
      MulConstSound(l.bits, r, a);
    } else if r.Const? {
      EvalConst(r.bits, a);
      MulConstSound(r.bits, l, a);
    } else if Width(l) == BOOL {
      OneBitProducts(x, y);
      EvalBin(And, l, r, a);
    }
  }

  lemma XorFacts(x: Bits, y: Bits)
    requires |x| == |y|
    ensures Words.Xor(x, y) == Words.Xor(y, x)
    ensures x == Zeros(|x|) ==> Words.Xor(x, y) == y
    ensures |x| == 1 ==> Words.Xor(x, y) == [x[0] != y[0]]
  {
  }

  lemma XorConstMeans(c: Bits, r: Expr, a: Assignment)
    requires WellTyped(r) && |c| == Width(r) > 0
    ensures Eval(XorConst(c, r), a) == Words.Xor(c, Eval(r, a))
  {
    hide Eval, EqConst, Words.Xor;
    XorFacts(c, Eval(r, a));
    EvalConst(c, a);
    EvalBin(Xor, Const(c), r, a);
    if |c| == BOOL {
      XorConstSound(c, r, a);
    }
  }

  lemma XorSound(l: Expr, r: Expr, a: Assignment)
    requires WellTyped(l) && WellTyped(r) && Width(l) == Width(r) > 0
    ensures Eval(CreateXor(l, r), a) == Words.Xor(Eval(l, a), Eval(r, a))
  {
    hide Eval, Words.Xor, XorConst;
    XorFacts(Eval(l, a), Eval(r, a));
    EvalBin(Xor, l, r, a);
    if l.Const? {
      EvalConst(l.bits, a);
      XorConstMeans(l.bits, r, a);
    }
    if r.Const? {
      EvalConst(r.bits, a);
      XorConstMeans(r.bits, l, a);
    }
    if l.Const? && r.Const? {
      EvalConst(Words.Xor(l.bits, r.bits), a);
    }
  }

  // ----- every binary operator

  /** The operators that have no form of their own on booleans: a divisor is taken to be one, and the only shift amount
      that leaves anything is zero. */
  function OneBitForm(op: BinOp, l: Expr, r: Expr): (e: Expr)
    requires WellTyped(l) && WellTyped(r) && Width(l) == Width(r) == BOOL
    ensures WellTyped(e) && Width(e) == BOOL
  {
    match op
    case UDiv => l
    case SDiv => l
    case AShr => l
    case URem => FALSE
    case SRem => FALSE
    case Sle => CreateOr(l, CreateIsZero(r))
    case _ => CreateAnd(l, CreateIsZero(r))
  }

  predicate Plain(op: BinOp) {
    op.UDiv? || op.SDiv? || op.URem? || op.SRem? || op.Shl? || op.LShr? || op.AShr? || op.Slt? || op.Sle?
  }

  function CreatePlain(op: BinOp, l: Expr, r: Expr): (e: Expr)
    requires Plain(op) && WellTyped(l) && WellTyped(r) && Width(l) == Width(r) > 0
    ensures WellTyped(e) && Width(e) == if op.IsCmp() then BOOL else Width(l)
  {
    if l.Const? && r.Const? then Const(Apply(op, l.bits, r.bits))
    else if Width(l) == BOOL then OneBitForm(op, l, r)
    else Bin(op, l, r)
  }

  /** The static create function of each binary expression. */
  function CreateBin(op: BinOp, l: Expr, r: Expr): (e: Expr)
    requires WellTyped(l) && WellTyped(r) && Width(l) == Width(r) > 0
    ensures WellTyped(e) && Width(e) == if op.IsCmp() then BOOL else Width(l)
  {
    match op
    case Add => CreateAdd(l, r)
    case Sub => CreateSub(l, r)
    case Mul => CreateMul(l, r)
    case And => CreateAnd(l, r)
    case Or => CreateOr(l, r)
    case Xor => CreateXor(l, r)
    case Eq => CreateEq(l, r)
    case Ult => CreateUlt(l, r)
    case Ule => CreateUge(r, l)
    case _ => CreatePlain(op, l, r)
  }

  lemma OneBitFormSound(op: BinOp, l: Expr, r: Expr, a: Assignment)
    requires Plain(op) && WellTyped(l) && WellTyped(r) && Width(l) == Width(r) == BOOL
    ensures Same(Bin(op, l, r), OneBitForm(op, l, r), a)
  {
    hide Eval, EqConst, CreateAnd, CreateOr, Arith, ToNat, ToInt, Words.And, Words.Or;
    var x, y := Eval(l, a), Eval(r, a);
    EvalBin(op, l, r, a);
    EvalConst([false], a);
    EqConstSound(Zeros(1), r, a);
    AndSound(l, CreateIsZero(r), a);
    OrSound(l, CreateIsZero(r), a);
    OneBitProducts(x, y);
    OneBitQuotients(x, y);
    OneBitOrder(x, y);
    OneBitJoin(x, y);
  }

  /** One bit and or or the negation of another. */
  lemma OneBitJoin(x: Bits, y: Bits)
    requires |x| == |y| == 1
    ensures Words.And(x, [Zeros(1) == y]) == [x[0] && !y[0]]
    ensures Words.Or(x, [Zeros(1) == y]) == [x[0] || !y[0]]
  {
    assert y == [y[0]] && Zeros(1) == [false];
  }

  lemma PlainSound(op: BinOp, l: Expr, r: Expr, a: Assignment)
    requires Plain(op) && WellTyped(l) && WellTyped(r) && Width(l) == Width(r) > 0
    ensures Same(Bin(op, l, r), CreatePlain(op, l, r), a)
  {
    hide Eval, Apply, OneBitForm;
    EvalBin(op, l, r, a);
    if l.Const? && r.Const? {
      EvalConst(l.bits, a);
      EvalConst(r.bits, a);
      EvalConst(Apply(op, l.bits, r.bits), a);
    } else if Width(l) == BOOL {
      OneBitFormSound(op, l, r, a);
    }
  }

  /** Every constructor of a binary expression keeps its value. */
  lemma BinSound(op: BinOp, l: Expr, r: Expr, a: Assignment)
    requires WellTyped(l) && WellTyped(r) && Width(l) == Width(r) > 0
    ensures Same(Bin(op, l, r), CreateBin(op, l, r), a)
  {
    hide Eval, CreateAdd, CreateSub, CreateMul, CreateAnd, CreateOr, CreateXor, CreateEq, CreateUlt, CreateUge, CreatePlain,
      Words.Add, Words.Sub, Words.And, Words.Or, Words.Xor, Arith, ToNat;
    EvalBin(op, l, r, a);
    match op
    case Add => AddSound(l, r, a);
    case Sub => SubSound(l, r, a);
    case Mul => MulSound(l, r, a);
    case And => AndSound(l, r, a);
    case Or => OrSound(l, r, a);
    case Xor => XorSound(l, r, a);
    case Eq => EqSound(l, r, a);
    case Ult => UltSound(l, r, a);
    case Ule => UgeSound(r, l, a);
    case _ => PlainSound(op, l, r, a);
  }

  lemma OnesAreNotZeros(w: nat)
    requires w > 0
    ensures Ones(w) != Zeros(w)
  {
    assert Ones(w)[0] && !Zeros(w)[0];
  }

  // Operands that decide or do not matter are seen.

  lemma FoldsArithmetic(op: BinOp, l: Expr, r: Expr)
    requires WellTyped(l) && WellTyped(r) && Width(l) == Width(r) > 0 && !r.Const?
    ensures op.Sub? && l == r && Width(l) > BOOL ==> CreateBin(op, l, r) == Const(Zeros(Width(l)))
    ensures (op.Add? || op.Xor?) && l == Const(Zeros(Width(l))) ==> CreateBin(op, l, r) == r
    ensures op.Mul? && l == Const(Zeros(Width(l))) ==> CreateBin(op, l, r) == l
    ensures op.Mul? && l.Const? && ToNat(l.bits) == 1 && Width(l) > BOOL ==> CreateBin(op, l, r) == r
  {
    hide ToNat, FromInt, Arith, Words.Add, Words.Sub, Words.Xor, EqConst, SubConst, CreateAnd, CreateOr;
    ToNatZeros(Width(l));
    OnesAreNotZeros(Width(l));
  }

  lemma FoldsLogic(op: BinOp, l: Expr, r: Expr)
    requires WellTyped(l) && WellTyped(r) && Width(l) == Width(r) > 0 && !r.Const?
    ensures op.Eq? && l == r ==> CreateBin(op, l, r) == TRUE
    ensures op.Or? && l == Const(Zeros(Width(l))) ==> CreateBin(op, l, r) == r
    ensures op.And? && l == Const(Zeros(Width(l))) ==> CreateBin(op, l, r) == l
    ensures op.And? && l == Const(Ones(Width(l))) ==> CreateBin(op, l, r) == r
    ensures op.Or? && l == Const(Ones(Width(l))) ==> CreateBin(op, l, r) == l
  {
    hide Words.And, Words.Or, CreateAdd, CreateSub, CreateMul, CreateXor, EqConst;
    OnesAreNotZeros(Width(l));
  }

  /** Constants always fold. */
  lemma FoldsConstants(op: BinOp, l: Expr, r: Expr)
    requires WellTyped(l) && WellTyped(r) && Width(l) == Width(r) > 0 && l.Const? && r.Const?
    ensures CreateBin(op, l, r).Const?
  {
    hide ToNat, FromInt, Arith, Words.Add, Words.Sub, Words.And, Words.Or, Words.Xor;
  }

  // ----- NotOptimized, Not, SExt, and rebuilding a node

  function CreateNot(e: Expr): (r: Expr)
    requires WellTyped(e)
    ensures WellTyped(r) && Width(r) == Width(e)
  {
    if e.Const? then Const(Words.Not(e.bits)) else NotE(e)
  }

  function CreateSExt(e: Expr, w: nat): (r: Expr)
    requires WellTyped(e) && w > 0
    ensures WellTyped(r) && Width(r) == w
  {
    if w == Width(e) then e
    else if w < Width(e) then CreateExtract(e, 0, w)
    else if e.Const? then Const(SignExtend(e.bits, w))
    else SExt(e, w)
  }

  lemma SExtSound(e: Expr, w: nat, a: Assignment)
    requires WellTyped(e) && w > 0
    ensures Eval(CreateSExt(e, w), a) == if w < Width(e) then Eval(e, a)[..w] else SignExtend(Eval(e, a), w)
  {
    hide Eval, CreateExtract;
    if w < Width(e) {
      ExtractSound(e, 0, w, a);
    } else if w == Width(e) {
    } else if e.Const? {
      EvalConst(e.bits, a);
      EvalConst(SignExtend(e.bits, w), a);
    } else {
      EvalSExt(e, w, a);
    }
  }

  /** The operands that a visitor walks over; the updates under a read are none. */
  function Kids(e: Expr): (k: seq<Expr>)
    ensures forall i :: 0 <= i < |k| ==> k[i] < e
    ensures WellTyped(e) ==> forall i :: 0 <= i < |k| ==> WellTyped(k[i])
  {
    match e
    case Const(_) => []
    case NotOptimized(x) => [x]
    case Read(_, _, index) => [index]
    case Select(c, t, f) => [c, t, f]
    case Concat(l, r) => [l, r]
    case Extract(x, _, _) => [x]
    case ZExt(x, _) => [x]
    case SExt(x, _) => [x]
    case NotE(x) => [x]
    case Bin(_, l, r) => [l, r]
  }

  /** New operands of the old widths. */
  predicate FitsKids(e: Expr, kids: seq<Expr>)
    requires WellTyped(e)
  {
    |kids| == |Kids(e)| && forall i :: 0 <= i < |kids| ==> WellTyped(kids[i]) && Width(kids[i]) == Width(Kids(e)[i])
  }

  /** The same kind of expression over new operands, built by its constructor. The updates under a read are kept; their
      indices have the width of the array's domain, as the new index has. */
  function Rebuild(e: Expr, kids: seq<Expr>): (r: Expr)
    requires WellTyped(e) && FitsKids(e, kids)
    ensures WellTyped(r) && Width(r) == Width(e)
  {
    WidthPositive(e);
    match e
    case Const(_) => e
    case NotOptimized(_) => NotOptimized(kids[0])
    case Read(root, head, _) => if IndexWidth(head, Width(kids[0])) then CreateRead(root, head, kids[0])
      else Read(root, head, kids[0])
    case Select(_, _, _) => CreateSelect(kids[0], kids[1], kids[2])
    case Concat(_, _) => CreateConcat(kids[0], kids[1])
    case Extract(_, off, w) => CreateExtract(kids[0], off, w)
    case ZExt(_, w) => CreateZExt(kids[0], w)
    case SExt(_, w) => CreateSExt(kids[0], w)
    case NotE(_) => CreateNot(kids[0])
    case Bin(op, l, _) => WidthPositive(l); CreateBin(op, kids[0], kids[1])
  }

  predicate SameKids(e: Expr, kids: seq<Expr>, a: Assignment) {
    |kids| == |Kids(e)| && forall i :: 0 <= i < |kids| ==> Same(Kids(e)[i], kids[i], a)
  }

  /** A read at another index of the same value. */
  lemma ReadSame(root: Array, head: UpdateNode, i: Expr, j: Expr, a: Assignment)
    requires WellTyped(Read(root, head, i)) && Same(i, j, a)
    ensures Same(Read(root, head, i), Rebuild(Read(root, head, i), [j]), a)
  {
    hide CreateRead;
    if IndexWidth(head, Width(j)) {
      ReadSound(root, head, j, a);
    }
  }

  lemma UnarySame(e: Expr, y: Expr, a: Assignment)
    requires WellTyped(e) && |Kids(e)| == 1 && !e.Read? && Same(Kids(e)[0], y, a)
    ensures Same(e, Rebuild(e, [y]), a)
  {
    hide CreateExtract, CreateZExt, CreateSExt, Words.Not, Eval;
    WidthPositive(e);
    match e
    case Extract(x, off, w) =>
      EvalExtract(x, off, w, a);
      ExtractSound(y, off, w, a);
    case ZExt(x, w) =>
      EvalZExt(x, w, a);
      ZExtSound(y, w, a);
    case SExt(x, w) =>
      EvalSExt(x, w, a);
      SExtSound(y, w, a);
    case _ => WrapSame(e, y, a);
  }

  lemma WrapSame(e: Expr, y: Expr, a: Assignment)
    requires WellTyped(e) && (e.NotOptimized? || e.NotE?) && Same(e.src, y, a)
    ensures Same(e, Rebuild(e, [y]), a)
  {
    hide Words.Not;
  }

  lemma SelectParts(c: Expr, t: Expr, f: Expr)
    requires WellTyped(Select(c, t, f))
    ensures WellTyped(c) && Width(c) == BOOL && WellTyped(t) && WellTyped(f) && Width(t) == Width(f) == Width(Select(c, t, f))
  {
  }

  lemma SelectSame(c: Expr, t: Expr, f: Expr, x: Expr, y: Expr, z: Expr, a: Assignment)
    requires WellTyped(Select(c, t, f)) && Same(c, x, a) && Same(t, y, a) && Same(f, z, a)
    ensures Same(Select(c, t, f), CreateSelect(x, y, z), a)
  {
    hide CreateSelect, Eval, WellTyped, Width;
    SelectParts(c, t, f);
    EvalSelect(c, t, f, a);
    SelectSound(x, y, z, a);
  }

  lemma ConcatSame(l: Expr, r: Expr, x: Expr, y: Expr, a: Assignment)
    requires WellTyped(Concat(l, r)) && Same(l, x, a) && Same(r, y, a)
    ensures Same(Concat(l, r), CreateConcat(x, y), a)
  {
    hide CreateConcat, Eval;
    EvalConcat(l, r, a);
    ConcatSound(x, y, a);
  }

  lemma BinSame(op: BinOp, l: Expr, r: Expr, x: Expr, y: Expr, a: Assignment)
    requires WellTyped(Bin(op, l, r)) && Width(l) > 0 && Same(l, x, a) && Same(r, y, a)
    ensures Same(Bin(op, l, r), CreateBin(op, x, y), a)
  {
    hide CreateBin, Apply, Eval;
    EvalBin(op, l, r, a);
    EvalBin(op, x, y, a);
    BinSound(op, x, y, a);
  }

  /** A node rebuilt over operands with the old values has the old value. */
  lemma RebuildSound(e: Expr, kids: seq<Expr>, a: Assignment)
    requires WellTyped(e) && FitsKids(e, kids) && SameKids(e, kids, a)
    ensures Same(e, Rebuild(e, kids), a)
  {
    hide Same, WellTyped, Width, Eval, CreateRead, CreateSelect, CreateConcat, CreateExtract, CreateZExt, CreateSExt,
      CreateNot, CreateBin;
    WidthPositive(e);
    match e
    case Const(_) => SameItself(e, a);
    case Read(root, head, i) =>
      assert Same(i, kids[0], a) && kids == [kids[0]];
      ReadSame(root, head, i, kids[0], a);
    case Select(c, t, f) =>
      assert Same(c, kids[0], a) && Same(t, kids[1], a) && Same(f, kids[2], a);
      SelectSame(c, t, f, kids[0], kids[1], kids[2], a);
    case Concat(l, r) =>
      assert Same(l, kids[0], a) && Same(r, kids[1], a);
      ConcatSame(l, r, kids[0], kids[1], a);
    case Bin(op, l, r) =>
      assert Same(l, kids[0], a) && Same(r, kids[1], a);
      WidthPositive(l);
      BinSame(op, l, r, kids[0], kids[1], a);
    case _ =>
      assert Same(Kids(e)[0], kids[0], a) && kids == [kids[0]];
      UnarySame(e, kids[0], a);
  }

  lemma SameItself(e: Expr, a: Assignment)
    requires WellTyped(e)
    ensures Same(e, e, a)
  {
  }
}
