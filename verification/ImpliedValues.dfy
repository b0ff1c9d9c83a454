/** KLEE's implied values: what an equation between an expression and a constant says about the bytes it reads. */
module ImpliedValues {
  import opened Words
  import opened Expressions
  import opened ExprBuilder

  /** A read and the value it must have. */
  datatype Implied = Implied(read: Expr, value: Bits)

  /** A select between two constants has two different ones, as the simplifying constructors see to. */
  predicate DistinctSelects(e: Expr) {
    match e
    case Const(_) => true
    case NotOptimized(src) => true
    case Read(_, _, _) => true
    case Select(c, t, f) => t.Const? && f.Const? ==> t != f && DistinctSelects(c)
    case Concat(l, r) => DistinctSelects(l) && DistinctSelects(r)
    case Extract(_, _, _) => true
    case ZExt(x, _) => DistinctSelects(x)
    case SExt(x, _) => DistinctSelects(x)
    case NotE(_) => true
    case Bin(_, l, r) => DistinctSelects(l) && DistinctSelects(r)
  }

  /** The equation has a solution. */
  ghost predicate Solvable(e: Expr, value: Bits) {
    WellTyped(e) && exists a: Assignment :: Eval(e, a) == value
  }

  /** The pair follows from the equation. */
  ghost predicate Follows(e: Expr, value: Bits, p: Implied)
    requires WellTyped(e)
  {
    p.read.Read? && WellTyped(p.read) && forall a: Assignment :: Eval(e, a) == value ==> Eval(p.read, a) == p.value
  }

  ghost predicate AllFollow(e: Expr, value: Bits, ps: seq<Implied>)
    requires WellTyped(e)
  {
    forall p :: p in ps ==> Follows(e, value, p)
  }

  /** One equation entails another. */
  ghost predicate Entails(e: Expr, value: Bits, x: Expr, v: Bits)
    requires WellTyped(e) && WellTyped(x)
  {
    forall a: Assignment :: Eval(e, a) == value ==> Eval(x, a) == v
  }

  lemma EntailsFollow(e: Expr, value: Bits, x: Expr, v: Bits, ps: seq<Implied>)
    requires WellTyped(e) && WellTyped(x) && Entails(e, value, x, v) && AllFollow(x, v, ps)
    ensures AllFollow(e, value, ps)
  {
    hide Eval, WellTyped;
    forall p | p in ps ensures Follows(e, value, p) {
      assert Follows(x, v, p);
    }
  }

  lemma EntailsSolvable(e: Expr, value: Bits, x: Expr, v: Bits)
    requires Solvable(e, value) && WellTyped(x) && Entails(e, value, x, v)
    ensures Solvable(x, v)
  {
  }

  datatype Equation = Equation(expr: Expr, value: Bits)

  function Size(e: Expr): nat {
    match e
    case Const(_) => 1
    case NotOptimized(src) => 1 + Size(src)
    case Read(_, _, _) => 1
    case Select(c, t, f) => 1 + Size(c) + Size(t) + Size(f)
    case Concat(l, r) => 1 + Size(l) + Size(r)
    case Extract(x, _, _) => 1 + Size(x)
    case ZExt(x, _) => 1 + Size(x)
    case SExt(x, _) => 1 + Size(x)
    case NotE(x) => 1 + Size(x)
    case Bin(_, l, r) => 1 + Size(l) + Size(r)
  }

  /** The equations between operands and constants that the code goes on to. The branches of a select are told apart by
      identity, and both branches being constants is enough. */
  function Next(e: Expr, value: Bits): (qs: seq<Equation>)
    requires WellTyped(e) && |value| == Width(e)
    ensures forall q :: q in qs ==> Size(q.expr) < Size(e) && WellTyped(q.expr) && |q.value| == Width(q.expr)
    ensures DistinctSelects(e) ==> forall q :: q in qs ==> DistinctSelects(q.expr)
  {
    match e
    case Select(c, t, f) =>
      if t.Const? && f.Const? then [Equation(c, [value == t.bits])] else []
    case Concat(l, r) => [Equation(l, value[Width(r)..]), Equation(r, value[..Width(r)])]
    case ZExt(x, _) => [Equation(x, value[..Width(x)])]
    case SExt(x, _) => [Equation(x, value[..Width(x)])]
    case Bin(op, l, r) => NextBin(op, l, r, value)
    case _ => []
  }

  function NextBin(op: BinOp, l: Expr, r: Expr, value: Bits): (qs: seq<Equation>)
    requires WellTyped(l) && WellTyped(r) && Width(l) == Width(r) && |value| == if op.IsCmp() then BOOL else Width(l)
    ensures forall q :: q in qs ==> (q.expr == l || q.expr == r) && |q.value| == Width(l)
  {
    match op
    case Add => if l.Const? then [Equation(r, Words.Sub(value, l.bits))] else []
    case Sub => if l.Const? then [Equation(r, Words.Sub(l.bits, value))] else []
    case Xor => if l.Const? then [Equation(r, Words.Xor(value, l.bits))] else []
    case And => if Width(l) == BOOL && value == [true] then [Equation(l, value), Equation(r, value)] else []
    case Or => if value == Zeros(|value|) then [Equation(l, value), Equation(r, value)] else []
    case Eq =>
      if !l.Const? then []
      else if value == [true] then [Equation(r, l.bits)]
      else if Width(l) == BOOL then [Equation(r, Words.Not(l.bits))] else []
    case _ => []
  }

  // ----- every step is entailed

  lemma NextEntailed(e: Expr, value: Bits)
    requires WellTyped(e) && |value| == Width(e) && Solvable(e, value) && DistinctSelects(e)
    ensures forall q :: q in Next(e, value) ==> Entails(e, value, q.expr, q.value)
  {
    forall q, a | q in Next(e, value) && Eval(e, a) == value ensures Eval(q.expr, a) == q.value {
      StepHolds(e, value, q, a);
    }
  }

  lemma StepHolds(e: Expr, value: Bits, q: Equation, a: Assignment)
    requires WellTyped(e) && |value| == Width(e) && DistinctSelects(e) && q in Next(e, value) && Eval(e, a) == value
    ensures Eval(q.expr, a) == q.value
  {
    hide Eval;
    match e
    case Select(c, t, f) =>
      EvalSelect(c, t, f, a);
      EvalConst(t.bits, a);
      EvalConst(f.bits, a);
    case Concat(l, r) => EvalConcat(l, r, a);
    case ZExt(x, w) => EvalZExt(x, w, a);
    case SExt(x, w) => EvalSExt(x, w, a);
    case Bin(op, l, r) =>
      EvalBin(op, l, r, a);
      BinStepHolds(op, l, r, value, q, a);
    case _ =>
  }

  lemma BinStepHolds(op: BinOp, l: Expr, r: Expr, value: Bits, q: Equation, a: Assignment)
    requires WellTyped(l) && WellTyped(r) && Width(l) == Width(r) && |value| == if op.IsCmp() then BOOL else Width(l)
    requires q in NextBin(op, l, r, value) && Apply(op, Eval(l, a), Eval(r, a)) == value
    ensures Eval(q.expr, a) == q.value
  {
    hide Eval, WellTyped, Words.Add, Words.Sub, FromInt;
    var x, y := Eval(l, a), Eval(r, a);
    if l.Const? {
      ConstValue(l, a);
    }
    match op
    case Add => AddSolve(l.bits, y, value);
    case Sub => SubSolve(l.bits, y, value);
    case Xor => XorSolve(l.bits, y, value);
    case And => AndTrue(x, y, value);
    case Or => OrZero(x, y, value);
    case Eq => NotEqual(x, y);
    case _ =>
  }

  lemma ConstValue(e: Expr, a: Assignment)
    requires WellTyped(e) && e.Const?
    ensures Eval(e, a) == e.bits
  {
  }

  lemma XorSolve(k: Bits, y: Bits, c: Bits)
    requires |k| == |y| == |c| && Words.Xor(k, y) == c
    ensures y == Words.Xor(c, k)
  {
    forall i | 0 <= i < |y| ensures y[i] == Words.Xor(c, k)[i] {
      assert c[i] == (k[i] != y[i]);
    }
  }

  lemma AndTrue(x: Bits, y: Bits, c: Bits)
    requires |x| == |y| == |c| && Words.And(x, y) == c
    ensures c == [true] ==> x == c && y == c
  {
    if c == [true] {
      assert c[0] == (x[0] && y[0]);
    }
  }

  lemma OrZero(x: Bits, y: Bits, c: Bits)
    requires |x| == |y| == |c| && Words.Or(x, y) == c
    ensures c == Zeros(|c|) ==> x == c && y == c
  {
    if c == Zeros(|c|) {
      forall i | 0 <= i < |c| ensures !x[i] && !y[i] {
        assert c[i] == (x[i] || y[i]);
      }
    }
  }

  lemma NotEqual(x: Bits, y: Bits)
    requires |x| == |y|
    ensures |x| == 1 && x != y ==> y == Words.Not(x)
  {
    if |x| == 1 && x != y {
      assert x == [x[0]] && y == [y[0]];
      assert y[0] == Words.Not(x)[0];
    }
  }

  // ----- getImpliedValues

  /** All pairs, in the order in which they are found. */
  function ImpliedBy(e: Expr, value: Bits): (ps: seq<Implied>)
    requires WellTyped(e) && |value| == Width(e)
    decreases Size(e), 1
  {
    if e.Read? then [Implied(e, value)] else ImpliedByAll(e, Next(e, value))
  }

  function ImpliedByAll(e: Expr, qs: seq<Equation>): (ps: seq<Implied>)
    requires forall q :: q in qs ==> Size(q.expr) < Size(e) && WellTyped(q.expr) && |q.value| == Width(q.expr)
    decreases Size(e), 0, |qs|
  {
    if qs == [] then [] else ImpliedBy(qs[0].expr, qs[0].value) + ImpliedByAll(e, qs[1..])
  }

  /** Whatever is implied holds in every solution of the equation. */
  lemma {:induction false} ImpliedSound(e: Expr, value: Bits)
    requires WellTyped(e) && |value| == Width(e) && Solvable(e, value) && DistinctSelects(e)
    ensures AllFollow(e, value, ImpliedBy(e, value))
    decreases Size(e), 1
  {
    hide Eval, WellTyped, Width, Next, DistinctSelects, Size, Solvable, Entails;
    if !e.Read? {
      NextEntailed(e, value);
      ImpliedAllSound(e, value, Next(e, value));
    }
  }

  lemma {:induction false} ImpliedAllSound(e: Expr, value: Bits, qs: seq<Equation>)
    requires WellTyped(e) && Solvable(e, value)
    requires forall q :: q in qs ==> Size(q.expr) < Size(e) && WellTyped(q.expr) && |q.value| == Width(q.expr)
    requires forall q :: q in qs ==> DistinctSelects(q.expr) && Entails(e, value, q.expr, q.value)
    ensures AllFollow(e, value, ImpliedByAll(e, qs))
    decreases Size(e), 0, |qs|
  {
    hide Eval, WellTyped, Width, DistinctSelects, Size, Solvable, Entails, Follows;
    if qs != [] {
      EntailsSolvable(e, value, qs[0].expr, qs[0].value);
      ImpliedSound(qs[0].expr, qs[0].value);
      EntailsFollow(e, value, qs[0].expr, qs[0].value, ImpliedBy(qs[0].expr, qs[0].value));
      ImpliedAllSound(e, value, qs[1..]);
    }
  }

  /** Two pairs for one read agree. */
  lemma ImpliedAgree(e: Expr, value: Bits, p: Implied, q: Implied)
    requires WellTyped(e) && |value| == Width(e) && Solvable(e, value) && DistinctSelects(e)
    requires p in ImpliedBy(e, value) && q in ImpliedBy(e, value) && p.read == q.read
    ensures p.value == q.value
  {
    hide Eval, WellTyped, DistinctSelects, ImpliedBy;
    ImpliedSound(e, value);
    var a :| Eval(e, a) == value;
    assert Follows(e, value, p) && Follows(e, value, q);
  }

  lemma ImpliedSteps(e: Expr, value: Bits)
    requires WellTyped(e) && |value| == Width(e)
    ensures ImpliedBy(e, value) == if e.Read? then [Implied(e, value)] else ImpliedByAll(e, Next(e, value))
    ensures Next(e, value)[0..] == Next(e, value)
  {
  }

  lemma ImpliedFrom(e: Expr, qs: seq<Equation>, i: nat)
    requires i < |qs| && forall q :: q in qs ==> Size(q.expr) < Size(e) && WellTyped(q.expr) && |q.value| == Width(q.expr)
    ensures ImpliedByAll(e, qs[i..]) == ImpliedBy(qs[i].expr, qs[i].value) + ImpliedByAll(e, qs[i + 1..])
  {
    hide Size, WellTyped, Width, ImpliedBy;
    assert qs[i..][1..] == qs[i + 1..];
  }

  lemma ImpliedNone(e: Expr, qs: seq<Equation>)
    ensures ImpliedByAll(e, qs[|qs|..]) == []
  {
  }

  /** getImpliedValues: appends to the results. Its two assertions hold for every equation that has a solution. */
  method GetImpliedValues(e: Expr, value: Bits, results: seq<Implied>) returns (out: seq<Implied>)
    requires WellTyped(e) && |value| == Width(e) && Solvable(e, value) && DistinctSelects(e)
    ensures out == results + ImpliedBy(e, value) && AllFollow(e, value, out[|results|..])
    decreases Size(e)
  {
    hide Eval, WellTyped, Width, Next, DistinctSelects, Size, AllFollow, ImpliedBy, ImpliedByAll;
    ImpliedSound(e, value);
    ImpliedSteps(e, value);
    if e.Read? {
      return results + [Implied(e, value)];
    }
    assert e.Const? ==> value == e.bits by { ConstantAsserted(e, value); }
    assert e.Select? && e.trueExpr.Const? && e.falseExpr.Const? ==> value == e.trueExpr.bits || value == e.falseExpr.bits by {
      SelectAsserted(e, value);
    }
    NextEntailed(e, value);
    var qs := Next(e, value);
    out := results;
    var i := 0;
    while i < |qs|
      invariant i <= |qs|
      invariant out + ImpliedByAll(e, qs[i..]) == results + ImpliedByAll(e, qs)
    {
      EntailsSolvable(e, value, qs[i].expr, qs[i].value);
      ImpliedFrom(e, qs, i);
      out := GetImpliedValues(qs[i].expr, qs[i].value, out);
      i := i + 1;
    }
    ImpliedNone(e, qs);
  }

  lemma ConstantAsserted(e: Expr, value: Bits)
    requires WellTyped(e) && Solvable(e, value)
    ensures e.Const? ==> value == e.bits
  {
  }

  lemma SelectAsserted(e: Expr, value: Bits)
    requires WellTyped(e) && Solvable(e, value)
    ensures e.Select? && e.trueExpr.Const? && e.falseExpr.Const? ==> value == e.trueExpr.bits || value == e.falseExpr.bits
  {
    if e.Select? && e.trueExpr.Const? && e.falseExpr.Const? {
      var a :| Eval(e, a) == value;
      EvalSelect(e.cond, e.trueExpr, e.falseExpr, a);
    }
  }

  // ----- where selects are not distinct, and what is always found

  ghost predicate CanOnlyBeTrue(c: Expr)
    requires WellTyped(c)
  {
    forall a: Assignment :: Eval(c, a) == [true]
  }

  /** The step through a select between constants is right exactly where the constants differ in value, or where the
      condition can only be true. */
  lemma SelectStepExact(c: Expr, t: Bits, f: Bits, value: Bits)
    requires WellTyped(c) && Width(c) == BOOL && |t| == |f| == |value| > 0
    requires var e := Select(c, Const(t), Const(f)); WellTyped(e) && Width(e) == |value| && Solvable(e, value)
    ensures var e := Select(c, Const(t), Const(f));
      && Next(e, value) == [Equation(c, [value == t])]
      && (Entails(e, value, c, [value == t]) <==> t != f || CanOnlyBeTrue(c))
  {
    var e := Select(c, Const(t), Const(f));
    forall a: Assignment ensures Eval(e, a) == if Eval(c, a)[0] then t else f {
      EvalSelect(c, Const(t), Const(f), a);
      EvalConst(t, a);
      EvalConst(f, a);
    }
    forall a: Assignment ensures Eval(c, a) == [Eval(c, a)[0]] {
    }
    var b :| Eval(e, b) == value;
    if t == f {
      assert value == t && [value == t] == [true];
      forall a: Assignment ensures Eval(e, a) == value {
      }
      assert Entails(e, value, c, [true]) <==> CanOnlyBeTrue(c);
    } else {
      forall a: Assignment | Eval(e, a) == value ensures Eval(c, a) == [value == t] {
        assert Eval(c, a)[0] == (value == t);
      }
    }
  }

  lemma FalsePair(arr: Array, c: Expr, e: Expr)
    requires WellTyped(e) && Width(e) == 2
    requires c == Bin(Eq, Const(ZERO_BYTE), Read(arr, NoUpdate, Const([false]))) &&
      e == Select(c, Const([true, true]), Const([true, true]))
    ensures ImpliedBy(e, [true, true]) == [Implied(c.r, ZERO_BYTE)]
  {
    hide Eval;
    var k := [true, true];
    assert Next(e, k) == [Equation(c, [true])] && Next(c, [true]) == [Equation(c.r, ZERO_BYTE)];
    assert ImpliedBy(c, [true]) == [Implied(c.r, ZERO_BYTE)] by {
      assert ImpliedByAll(c, Next(c, [true])) == ImpliedBy(c.r, ZERO_BYTE) + [];
    }
    assert ImpliedByAll(e, Next(e, k)) == ImpliedBy(c, [true]) + [];
  }

  /** An input for which a false pair is inferred: both branches are the same, the byte compared in the condition is free. */
  lemma EqualBranchesUnsound(arr: Array, c: Expr, e: Expr)
    requires arr == Array("x", 1, [])
    requires c == Bin(Eq, Const(ZERO_BYTE), Read(arr, NoUpdate, Const([false]))) &&
      e == Select(c, Const([true, true]), Const([true, true]))
    ensures WellTyped(e) && Width(e) == 2 && (forall a: Assignment :: Eval(e, a) == [true, true])
    ensures ImpliedBy(e, [true, true]) == [Implied(c.r, ZERO_BYTE)] && !AllFollow(e, [true, true], ImpliedBy(e, [true, true]))
  {
    assert WellTyped(c.r) && WellTyped(c) && Width(c) == BOOL;
    forall a: Assignment ensures Eval(e, a) == [true, true] {
      EvalSelect(c, e.trueExpr, e.falseExpr, a);
    }
    var k := [true, true];
    assert ImpliedBy(e, k) == [Implied(c.r, ZERO_BYTE)] by { FalsePair(arr, c, e); }
    hide ImpliedBy, Next;
    var one: Byte := [true, false, false, false, false, false, false, false];
    var b := map[arr := [one]];
    ReadFirstByte(arr, b);
    assert Eval(c.r, b) == one;
    assert !Follows(e, k, Implied(c.r, ZERO_BYTE));
  }

  lemma ReadFirstByte(arr: Array, a: Assignment)
    requires arr.constantValues == []
    ensures var p := Read(arr, NoUpdate, Const([false])); WellTyped(p) && Eval(p, a) == Lookup(a, arr, 0)
  {
    var i := Const([false]);
    assert WellTyped(i) && Eval(i, a) == [false] && ToNat([false]) == 0;
  }

  lemma AndDistinct(l: Expr, r: Expr)
    requires WellTyped(l) && WellTyped(r) && Width(l) == Width(r) && DistinctSelects(l) && DistinctSelects(r)
    ensures DistinctSelects(CreateAnd(l, r))
  {
    hide WellTyped, Width, Ones, Zeros;
  }

  lemma OrDistinct(l: Expr, r: Expr)
    requires WellTyped(l) && WellTyped(r) && Width(l) == Width(r) && DistinctSelects(l) && DistinctSelects(r)
    ensures DistinctSelects(CreateOr(l, r))
  {
    hide WellTyped, Width, Ones, Zeros;
  }

  lemma {:induction false} EqConstDistinct(c: Bits, r: Expr)
    requires WellTyped(r) && |c| == Width(r) > 0 && DistinctSelects(r)
    ensures DistinctSelects(EqConst(c, r))
    decreases r
  {
    hide CreateAnd, SignExtend, Words.Add, Words.Sub;
    if r.Const? {
    } else if |c| == BOOL {
      if !c[0] && r.Bin? && r.op.Or? {
        EqConstDistinct([false], r.l);
        EqConstDistinct([false], r.r);
        AndDistinct(EqConst([false], r.l), EqConst([false], r.r));
      }
    } else if r.SExt? || r.ZExt? {
      if Width(r.src) > 0 {
        EqConstDistinct(c[..Width(r.src)], r.src);
      }
    } else if r.Bin? && r.op.Add? && r.l.Const? {
      EqConstDistinct(Words.Sub(c, r.l.bits), r.r);
    } else if r.Bin? && r.op.Sub? && r.l.Const? {
      EqConstDistinct(Words.Sub(r.l.bits, c), r.r);
    }
  }

  lemma IsZeroDistinct(e: Expr)
    requires WellTyped(e) && Width(e) > 0 && DistinctSelects(e)
    ensures DistinctSelects(CreateIsZero(e))
  {
    hide WellTyped, Width, EqConst, Zeros;
    EqConstDistinct(Zeros(Width(e)), e);
  }

  lemma SelectNodeDistinct(c: Expr, t: Expr, f: Expr)
    requires DistinctSelects(c) && t != f
    ensures DistinctSelects(Select(c, t, f))
  {
  }

  lemma OneBit(e: Expr)
    requires WellTyped(e) && Width(e) == BOOL && e.Const?
    ensures |e.bits| == 1
  {
  }

  /** The constructor never builds such a select. */
  lemma CreateSelectDistinct(c: Expr, t: Expr, f: Expr)
    requires WellTyped(c) && Width(c) == BOOL && WellTyped(t) && WellTyped(f) && Width(t) == Width(f)
    requires DistinctSelects(c) && DistinctSelects(t) && DistinctSelects(f)
    ensures DistinctSelects(CreateSelect(c, t, f))
  {
    if c.Const? {
      OneBit(c);
    }
    hide WellTyped, Width, CreateAnd, CreateOr, CreateIsZero, DistinctSelects;
    if !c.Const? && t != f {
      SelectNodeDistinct(c, t, f);
      IsZeroDistinct(c);
      if Width(t) == BOOL && t.Const? {
        OneBit(t);
        OrDistinct(c, f);
        AndDistinct(CreateIsZero(c), f);
      } else if Width(t) == BOOL && f.Const? {
        OneBit(f);
        OrDistinct(CreateIsZero(c), t);
        AndDistinct(c, t);
      }
    }
  }

  /** Built from reads by steps that can be undone. */
  predicate Invertible(e: Expr) {
    match e
    case Read(_, _, _) => true
    case Concat(l, r) => Invertible(l) && Invertible(r)
    case ZExt(x, _) => Invertible(x)
    case SExt(x, _) => Invertible(x)
    case Bin(op, l, r) => (op.Add? || op.Sub? || op.Xor?) && l.Const? && Invertible(r)
    case _ => false
  }

  predicate IsRead(e: Expr, read: Expr) {
    match e
    case Read(_, _, _) => e == read
    case Concat(l, r) => IsRead(l, read) || IsRead(r, read)
    case ZExt(x, _) => IsRead(x, read)
    case SExt(x, _) => IsRead(x, read)
    case Bin(_, _, r) => IsRead(r, read)
    case _ => false
  }

  /** Every byte of an invertible expression is found. */
  lemma {:induction false} InvertibleComplete(e: Expr, value: Bits, read: Expr)
    requires WellTyped(e) && |value| == Width(e) && Invertible(e) && IsRead(e, read)
    ensures exists p :: p in ImpliedBy(e, value) && p.read == read
    decreases Size(e)
  {
    hide WellTyped, Width, Words.Add, Words.Sub;
    if e.Read? {
      assert Implied(e, value) in ImpliedBy(e, value);
    } else {
      var qs := Next(e, value);
      var k := NextRead(e, value, read);
      InvertibleComplete(qs[k].expr, qs[k].value, read);
      MemberOfAll(e, qs, k);
    }
  }

  lemma NextRead(e: Expr, value: Bits, read: Expr) returns (k: nat)
    requires WellTyped(e) && |value| == Width(e) && Invertible(e) && IsRead(e, read) && !e.Read?
    ensures k < |Next(e, value)| && Invertible(Next(e, value)[k].expr) && IsRead(Next(e, value)[k].expr, read)
  {
    hide Words.Add, Words.Sub;
    k := if e.Concat? && !IsRead(e.left, read) then 1 else 0;
  }

  lemma {:induction false} MemberOfAll(e: Expr, qs: seq<Equation>, k: nat)
    requires forall q :: q in qs ==> Size(q.expr) < Size(e) && WellTyped(q.expr) && |q.value| == Width(q.expr)
    requires k < |qs|
    ensures forall p :: p in ImpliedBy(qs[k].expr, qs[k].value) ==> p in ImpliedByAll(e, qs)
    decreases |qs|
  {
    if k > 0 {
      MemberOfAll(e, qs[1..], k - 1);
    }
  }

  lemma FoundBelow(e: Expr, value: Bits, q: Equation, p: Implied)
    requires WellTyped(e) && |value| == Width(e) && !e.Read? && q in Next(e, value) && p in ImpliedBy(q.expr, q.value)
    ensures p in ImpliedBy(e, value)
  {
    hide Next, WellTyped, Width;
    var qs := Next(e, value);
    var k :| 0 <= k < |qs| && qs[k] == q;
    MemberOfAll(e, qs, k);
  }

  /** Whatever a true conjunction, a false disjunction and an equation with a constant imply of their operands is found. */
  lemma JunctionComplete(op: BinOp, l: Expr, r: Expr, p: Implied)
    requires WellTyped(l) && WellTyped(r) && Width(l) == Width(r) > 0
    ensures op.And? && Width(l) == BOOL && (p in ImpliedBy(l, [true]) || p in ImpliedBy(r, [true])) ==>
      p in ImpliedBy(Bin(op, l, r), [true])
    ensures op.Or? && (p in ImpliedBy(l, Zeros(Width(l))) || p in ImpliedBy(r, Zeros(Width(l)))) ==>
      p in ImpliedBy(Bin(op, l, r), Zeros(Width(l)))
    ensures op.Eq? && l.Const? && p in ImpliedBy(r, l.bits) ==> p in ImpliedBy(Bin(op, l, r), [true])
    ensures op.Eq? && l.Const? && Width(l) == BOOL && p in ImpliedBy(r, [!l.bits[0]]) ==> p in ImpliedBy(Bin(op, l, r), [false])
  {
    hide Words.Add, Words.Sub, Words.Xor, ImpliedBy, ImpliedByAll, Size, DistinctSelects;
    var e := Bin(op, l, r);
    if op.And? && Width(l) == BOOL {
      if p in ImpliedBy(l, [true]) { FoundBelow(e, [true], Equation(l, [true]), p); }
      if p in ImpliedBy(r, [true]) { FoundBelow(e, [true], Equation(r, [true]), p); }
    } else if op.Or? {
      if p in ImpliedBy(l, Zeros(Width(l))) { FoundBelow(e, Zeros(Width(l)), Equation(l, Zeros(Width(l))), p); }
      if p in ImpliedBy(r, Zeros(Width(l))) { FoundBelow(e, Zeros(Width(l)), Equation(r, Zeros(Width(l))), p); }
    } else if op.Eq? && l.Const? {
      if p in ImpliedBy(r, l.bits) { FoundBelow(e, [true], Equation(r, l.bits), p); }
      if Width(l) == BOOL {
        assert Words.Not(l.bits) == [!l.bits[0]];
        if p in ImpliedBy(r, [!l.bits[0]]) { FoundBelow(e, [false], Equation(r, [!l.bits[0]]), p); }
      }
    }
  }
}
