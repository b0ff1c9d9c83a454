/** The simplifying constructors of KLEE's expressions (the static `create` functions), and the proof
    that each of them builds an expression with the meaning of the node it stands for. */
module ExprBuilder {
  import opened Words
  import opened Expressions

  const FALSE: Expr := Const([false])
  const TRUE: Expr := Const([true])

  // ----- Extract and Concat

  /** How often the two constructors below can still push through a Concat. */
  function ConcatDepth(e: Expr): nat {
    match e
    case Concat(l, r) => 1 + ConcatDepth(l) + ConcatDepth(r)
    case Extract(x, _, _) => ConcatDepth(x)
    case _ => 0
  }

  function CreateExtract(e: Expr, off: nat, w: nat): (r: Expr)
    requires WellTyped(e) && w > 0 && off + w <= Width(e)
    ensures WellTyped(r) && Width(r) == w && ConcatDepth(r) <= ConcatDepth(e)
    decreases ConcatDepth(e), 0
  {
    if w == Width(e) then e
    else match e
      case Const(bits) => Const(bits[off..off + w])
      case Concat(x, y) =>
        if off >= Width(y) then CreateExtract(x, off - Width(y), w)
        else if off + w <= Width(y) then CreateExtract(y, off, w)
        else CreateConcat(CreateExtract(x, 0, w - Width(y) + off), CreateExtract(y, off, Width(y) - off))
      case _ => Extract(e, off, w)
  }

  function CreateConcat(l: Expr, r: Expr): (e: Expr)
    requires WellTyped(l) && WellTyped(r)
    ensures WellTyped(e) && Width(e) == Width(l) + Width(r) && ConcatDepth(e) <= 1 + ConcatDepth(l) + ConcatDepth(r)
    decreases ConcatDepth(l) + ConcatDepth(r), 1
  {
    if l.Const? && r.Const? then Const(r.bits + l.bits)
    else if l.Extract? && r.Extract? && l.expr == r.expr && r.offset + r.width == l.offset then
      CreateExtract(l.expr, r.offset, l.width + r.width)
    else Concat(l, r)
  }

  lemma ConcatParts(l: Expr, r: Expr)
    requires WellTyped(Concat(l, r))
    ensures WellTyped(l) && WellTyped(r) && Width(Concat(l, r)) == Width(l) + Width(r)
  {
  }

  // A slice of two words put together: from the upper one, from the lower one, or across.

  lemma SliceHigh(x: Bits, y: Bits, off: nat, w: nat)
    requires |y| <= off && off + w <= |y| + |x|
    ensures (y + x)[off..off + w] == x[off - |y|..off - |y| + w]
  {
  }

  lemma SliceLow(x: Bits, y: Bits, off: nat, w: nat)
    requires off + w <= |y|
    ensures (y + x)[off..off + w] == y[off..off + w]
  {
  }

  lemma SliceAcross(x: Bits, y: Bits, off: nat, w: nat)
    requires off < |y| < off + w <= |y| + |x|
    ensures (y + x)[off..off + w] == y[off..|y|] + x[0..w - |y| + off]
  {
    var s, t := (y + x)[off..off + w], y[off..|y|] + x[0..w - |y| + off];
    forall k | 0 <= k < w ensures s[k] == t[k] {
    }
  }

  lemma {:induction false} ExtractSound(e: Expr, off: nat, w: nat, a: Assignment)
    requires WellTyped(e) && w > 0 && off + w <= Width(e)
    ensures Eval(CreateExtract(e, off, w), a) == Eval(e, a)[off..off + w]
    decreases ConcatDepth(e), 0
  {
    hide Eval, CreateConcat, WellTyped, Width;
    if w == Width(e) {
    } else if e.Concat? {
      var x, y := e.left, e.right;
      ConcatParts(x, y);
      EvalConcat(x, y, a);
      if off >= Width(y) {
        SliceHigh(Eval(x, a), Eval(y, a), off, w);
        ExtractSound(x, off - Width(y), w, a);
      } else if off + w <= Width(y) {
        SliceLow(Eval(x, a), Eval(y, a), off, w);
        ExtractSound(y, off, w, a);
      } else {
        SliceAcross(Eval(x, a), Eval(y, a), off, w);
        ExtractSound(x, 0, w - Width(y) + off, a);
        ExtractSound(y, off, Width(y) - off, a);
        ConcatSound(CreateExtract(x, 0, w - Width(y) + off), CreateExtract(y, off, Width(y) - off), a);
      }
    } else {
      ExtractFlatSound(e, off, w, a);
    }
  }

  lemma ExtractFlatSound(e: Expr, off: nat, w: nat, a: Assignment)
    requires WellTyped(e) && w > 0 && off + w <= Width(e) && w != Width(e) && !e.Concat?
    ensures Eval(CreateExtract(e, off, w), a) == Eval(e, a)[off..off + w]
  {
    hide Eval, CreateConcat;
    if e.Const? {
      EvalConst(e.bits, a);
      EvalConst(e.bits[off..off + w], a);
    } else {
      assert CreateExtract(e, off, w) == Extract(e, off, w);
      EvalExtract(e, off, w, a);
    }
  }

  lemma {:induction false} ConcatSound(l: Expr, r: Expr, a: Assignment)
    requires WellTyped(l) && WellTyped(r)
    ensures Eval(CreateConcat(l, r), a) == Eval(r, a) + Eval(l, a)
    decreases ConcatDepth(l) + ConcatDepth(r), 1
  {
    hide Eval, CreateExtract;
    EvalConcat(l, r, a);
    if l.Const? && r.Const? {
      EvalConst(l.bits, a);
      EvalConst(r.bits, a);
      EvalConst(r.bits + l.bits, a);
    } else if l.Extract? && r.Extract? && l.expr == r.expr && r.offset + r.width == l.offset {
      ExtractSound(l.expr, r.offset, l.width + r.width, a);
      EvalExtract(l.expr, l.offset, l.width, a);
      EvalExtract(r.expr, r.offset, r.width, a);
    }
  }

  /** Taking an expression apart and putting it together again gives back the expression itself, and so does the reverse. */
  lemma SplitAndJoin(e: Expr, k: nat)
    requires WellTyped(e) && 0 < k < Width(e)
    ensures !e.Concat? ==> CreateConcat(CreateExtract(e, k, Width(e) - k), CreateExtract(e, 0, k)) == e
    ensures e.Concat? && k == Width(e.right) ==> CreateExtract(e, k, Width(e) - k) == e.left && CreateExtract(e, 0, k) == e.right
  {
    if e.Concat? && k == Width(e.right) {
      WidthPositive(e.left);
      assert CreateExtract(e, k, Width(e) - k) == CreateExtract(e.left, 0, Width(e.left));
      assert CreateExtract(e, 0, k) == CreateExtract(e.right, 0, k);
    } else if e.Const? {
      assert e.bits[0..k] + e.bits[k..] == e.bits;
    } else if !e.Concat? {
      assert CreateExtract(e, k, Width(e) - k) == Extract(e, k, Width(e) - k) && CreateExtract(e, 0, k) == Extract(e, 0, k);
    }
  }

  function CreateZExt(e: Expr, w: nat): (r: Expr)
    requires WellTyped(e) && w > 0
    ensures WellTyped(r) && Width(r) == w
  {
    if w == Width(e) then e
    else if w < Width(e) then CreateExtract(e, 0, w)
    else if e.Const? then Const(e.bits + Zeros(w - Width(e)))
    else ZExt(e, w)
  }

  lemma ZExtSound(e: Expr, w: nat, a: Assignment)
    requires WellTyped(e) && w > 0
    ensures Eval(CreateZExt(e, w), a) == if w < Width(e) then Eval(e, a)[..w] else Eval(e, a) + Zeros(w - Width(e))
  {
    hide Eval, CreateExtract;
    if w < Width(e) {
      ExtractSound(e, 0, w, a);
    } else if w == Width(e) {
    } else if e.Const? {
      EvalConst(e.bits, a);
      EvalConst(e.bits + Zeros(w - Width(e)), a);
    } else {
      EvalZExt(e, w, a);
    }
  }

  // ----- And and Or

  function CreateAnd(l: Expr, r: Expr): (e: Expr)
    requires WellTyped(l) && WellTyped(r) && Width(l) == Width(r)
    ensures WellTyped(e) && Width(e) == Width(l)
  {
    if l.Const? && r.Const? then Const(Words.And(l.bits, r.bits))
    else if l.Const? then AndPartial(r, l.bits)
    else if r.Const? then AndPartial(l, r.bits)
    else Bin(And, l, r)
  }

  function AndPartial(l: Expr, c: Bits): (e: Expr)
    requires WellTyped(l) && |c| == Width(l) > 0
    ensures WellTyped(e) && Width(e) == Width(l)
  {
    if c == Ones(|c|) then l
    else if c == Zeros(|c|) then Const(c)
    else Bin(And, l, Const(c))
  }

  lemma AndSound(l: Expr, r: Expr, a: Assignment)
    requires WellTyped(l) && WellTyped(r) && Width(l) == Width(r)
    ensures Eval(CreateAnd(l, r), a) == Words.And(Eval(l, a), Eval(r, a))
  {
    hide Eval, Words.And, Ones, Zeros;
    var x, y := Eval(l, a), Eval(r, a);
    AndFacts(x, y);
    AndFacts(y, x);
    EvalBin(And, l, r, a);
    EvalBin(And, r, l, a);
    if l.Const? {
      EvalConst(l.bits, a);
    }
    if r.Const? {
      EvalConst(r.bits, a);
    }
    if l.Const? && r.Const? {
      EvalConst(Words.And(l.bits, r.bits), a);
    }
  }

  function CreateOr(l: Expr, r: Expr): (e: Expr)
    requires WellTyped(l) && WellTyped(r) && Width(l) == Width(r)
    ensures WellTyped(e) && Width(e) == Width(l)
  {
    if l.Const? && r.Const? then Const(Words.Or(l.bits, r.bits))
    else if l.Const? then OrPartial(r, l.bits)
    else if r.Const? then OrPartial(l, r.bits)
    else Bin(Or, l, r)
  }

  function OrPartial(l: Expr, c: Bits): (e: Expr)
    requires WellTyped(l) && |c| == Width(l) > 0
    ensures WellTyped(e) && Width(e) == Width(l)
  {
    if c == Ones(|c|) then Const(c)
    else if c == Zeros(|c|) then l
    else Bin(Or, l, Const(c))
  }

  lemma OrSound(l: Expr, r: Expr, a: Assignment)
    requires WellTyped(l) && WellTyped(r) && Width(l) == Width(r)
    ensures Eval(CreateOr(l, r), a) == Words.Or(Eval(l, a), Eval(r, a))
  {
    hide Eval, Words.Or, Ones, Zeros;
    var x, y := Eval(l, a), Eval(r, a);
    OrFacts(x, y);
    OrFacts(y, x);
    EvalBin(Or, l, r, a);
    EvalBin(Or, r, l, a);
    if l.Const? {
      EvalConst(l.bits, a);
    }
    if r.Const? {
      EvalConst(r.bits, a);
    }
    if l.Const? && r.Const? {
      EvalConst(Words.Or(l.bits, r.bits), a);
    }
  }

  // ----- Eq

  function CreateEq(l: Expr, r: Expr): (e: Expr)
    requires WellTyped(l) && WellTyped(r) && Width(l) == Width(r)
    ensures WellTyped(e) && Width(e) == BOOL
  {
    if l.Const? then EqConst(l.bits, r)
    else if r.Const? then EqConst(r.bits, l)
    else if l == r then TRUE
    else Bin(Eq, l, r)
  }

  function CreateIsZero(e: Expr): (r: Expr)
    requires WellTyped(e) && Width(e) > 0
    ensures WellTyped(r) && Width(r) == BOOL
  {
    EqConst(Zeros(Width(e)), e)
  }

  /** Equality with a constant: folded, or pushed through the operators that have an inverse. */
  function EqConst(c: Bits, r: Expr): (e: Expr)
    requires WellTyped(r) && |c| == Width(r) > 0
    ensures WellTyped(e) && Width(e) == BOOL
    decreases r
  {
    var plain := Bin(Eq, Const(c), r);
    if r.Const? then Const([c == r.bits])
    else if |c| == BOOL then
      if c[0] then r
      else match r
        case Bin(Eq, Const(k), x) => if k == [false] then x else plain
        case Bin(Or, x, y) => CreateAnd(EqConst([false], x), EqConst([false], y))
        case _ => plain
    else match r
      case SExt(x, _) =>
        if Width(x) > 0 && c == SignExtend(c[..Width(x)], |c|) then EqConst(c[..Width(x)], x) else FALSE
      case ZExt(x, _) =>
        if Width(x) > 0 && c == c[..Width(x)] + Zeros(|c| - Width(x)) then EqConst(c[..Width(x)], x) else FALSE
      case Bin(Add, Const(k), x) => EqConst(Words.Sub(c, k), x)
      case Bin(Sub, Const(k), x) => EqConst(Words.Sub(k, c), x)
      case _ => plain
  }

  lemma {:induction false} WidthPositive(e: Expr)
    requires WellTyped(e)
    ensures Width(e) > 0
    decreases e
  {
    match e
    case NotOptimized(x) => WidthPositive(x);
    case Select(_, t, _) => WidthPositive(t);
    case Concat(l, _) => WidthPositive(l);
    case ZExt(x, _) => WidthPositive(x);
    case SExt(x, _) => WidthPositive(x);
    case NotE(x) => WidthPositive(x);
    case Bin(_, l, _) => WidthPositive(l);
    case _ =>
  }

  lemma {:induction false} EqConstSound(c: Bits, r: Expr, a: Assignment)
    requires WellTyped(r) && |c| == Width(r) > 0
    ensures Eval(EqConst(c, r), a) == [c == Eval(r, a)]
    decreases r, 1
  {
    if r.Const? {
      hide Eval;
      EvalConst(r.bits, a);
      EvalConst([c == r.bits], a);
    } else if |c| == BOOL {
      EqBoolSound(c, r, a);
    } else {
      EqWideSound(c, r, a);
    }
  }

  lemma {:induction false} EqBoolSound(c: Bits, r: Expr, a: Assignment)
    requires WellTyped(r) && !r.Const? && |c| == Width(r) == BOOL
    ensures Eval(EqConst(c, r), a) == [c == Eval(r, a)]
    decreases r, 0
  {
    hide Eval;
    var v := Eval(r, a);
    assert v == [v[0]] && c == [c[0]];
    assert c == v <==> c[0] == v[0];
    if c[0] {
      assert [c == v] == v;
    } else if r.Bin? && r.op.Or? {
      EqConstSound([false], r.l, a);
      EqConstSound([false], r.r, a);
      NotOrSound(r.l, r.r, a);
    } else if r.Bin? && r.op.Eq? && r.l.Const? && r.l.bits == [false] {
      assert EqConst(c, r) == r.r;
      DoubleNegation(r.r, a);
    } else {
      assert EqConst(c, r) == Bin(Eq, Const(c), r);
      EvalBin(Eq, Const(c), r, a);
      EvalConst(c, a);
    }
  }

  lemma DoubleNegation(x: Expr, a: Assignment)
    requires WellTyped(x) && Width(x) == BOOL
    ensures Eval(x, a) == [[false] == Eval(Bin(Eq, Const([false]), x), a)]
  {
    hide Eval;
    var v := Eval(x, a);
    EvalBin(Eq, Const([false]), x, a);
    EvalConst([false], a);
    assert v == [v[0]] && ([false] == v <==> !v[0]);
  }

  /** A disjunction is false where both sides are. */
  lemma NotOrSound(x: Expr, y: Expr, a: Assignment)
    requires WellTyped(x) && WellTyped(y) && Width(x) == Width(y) == BOOL
    requires Eval(EqConst([false], x), a) == [[false] == Eval(x, a)]
    requires Eval(EqConst([false], y), a) == [[false] == Eval(y, a)]
    ensures Eval(CreateAnd(EqConst([false], x), EqConst([false], y)), a) == [[false] == Eval(Bin(Or, x, y), a)]
  {
    hide Eval, EqConst, CreateAnd;
    EvalBin(Or, x, y, a);
    AndSound(EqConst([false], x), EqConst([false], y), a);
    var u, v := Eval(x, a), Eval(y, a);
    assert u == [u[0]] && v == [v[0]];
  }

  lemma {:induction false} EqWideSound(c: Bits, r: Expr, a: Assignment)
    requires WellTyped(r) && !r.Const? && |c| == Width(r) > BOOL
    ensures Eval(EqConst(c, r), a) == [c == Eval(r, a)]
    decreases r, 0
  {
    hide Eval, FromInt, ToNat;
    if r.SExt? || r.ZExt? {
      WidthPositive(r.src);
      EqConstSound(c[..Width(r.src)], r.src, a);
      EqExtendedSound(c, r, a);
    } else if r.Bin? && (r.op.Add? || r.op.Sub?) && r.l.Const? {
      EqConstSound(if r.op.Add? then Words.Sub(c, r.l.bits) else Words.Sub(r.l.bits, c), r.r, a);
      EqLinearSound(c, r, a);
    } else {
      assert EqConst(c, r) == Bin(Eq, Const(c), r);
      EvalBin(Eq, Const(c), r, a);
      EvalConst(c, a);
    }
  }

  /** The constant with its upper bits replaced by those of an extension of the lower ones. */
  function FromLow(c: Bits, n: nat, signed: bool): (r: Bits)
    requires n <= |c|
    ensures |r| == |c|
  {
    if signed then SignExtend(c[..n], |c|) else c[..n] + Zeros(|c| - n)
  }

  lemma EqConstExtended(c: Bits, r: Expr)
    requires WellTyped(r) && (r.SExt? || r.ZExt?) && |c| == Width(r) > BOOL && Width(r.src) > 0
    ensures EqConst(c, r) == if c == FromLow(c, Width(r.src), r.SExt?) then EqConst(c[..Width(r.src)], r.src) else FALSE
  {
  }

  lemma ExtendedEquals(c: Bits, v: Bits, signed: bool)
    requires |v| <= |c|
    ensures (c == if signed then SignExtend(v, |c|) else v + Zeros(|c| - |v|)) <==> c == FromLow(c, |v|, signed) && c[..|v|] == v
  {
    assert (v + Zeros(|c| - |v|))[..|v|] == v;
  }

  /** An extended value equals `c` exactly if `c` is an extension and the unextended values agree. */
  lemma EqExtendedSound(c: Bits, r: Expr, a: Assignment)
    requires WellTyped(r) && (r.SExt? || r.ZExt?) && |c| == Width(r) > BOOL && Width(r.src) > 0
    requires Eval(EqConst(c[..Width(r.src)], r.src), a) == [c[..Width(r.src)] == Eval(r.src, a)]
    ensures Eval(EqConst(c, r), a) == [c == Eval(r, a)]
  {
    hide Eval, EqConst, FromLow, SignExtend, Zeros;
    EvalConst([false], a);
    EqConstExtended(c, r);
    ExtendedEquals(c, Eval(r.src, a), r.SExt?);
    if r.SExt? {
      EvalSExt(r.src, r.width, a);
    } else {
      EvalZExt(r.src, r.width, a);
    }
  }

  /** An equation with a constant offset, solved for the other operand. */
  lemma EqLinearSound(c: Bits, r: Expr, a: Assignment)
    requires WellTyped(r) && r.Bin? && (r.op.Add? || r.op.Sub?) && r.l.Const? && |c| == Width(r) > BOOL
    requires var s := if r.op.Add? then Words.Sub(c, r.l.bits) else Words.Sub(r.l.bits, c);
      Eval(EqConst(s, r.r), a) == [s == Eval(r.r, a)]
    ensures Eval(EqConst(c, r), a) == [c == Eval(r, a)]
  {
    hide Eval, FromInt, ToNat;
    EvalBin(r.op, r.l, r.r, a);
    EvalConst(r.l.bits, a);
    AddSolve(r.l.bits, Eval(r.r, a), c);
    SubSolve(r.l.bits, Eval(r.r, a), c);
    assert EqConst(c, r) == EqConst(if r.op.Add? then Words.Sub(c, r.l.bits) else Words.Sub(r.l.bits, c), r.r);
  }

  lemma EqSound(l: Expr, r: Expr, a: Assignment)
    requires WellTyped(l) && WellTyped(r) && Width(l) == Width(r)
    ensures Eval(CreateEq(l, r), a) == [Eval(l, a) == Eval(r, a)]
  {
    hide EqConst, Eval;
    WidthPositive(l);
    if l.Const? {
      EqConstSound(l.bits, r, a);
      EvalConst(l.bits, a);
    } else if r.Const? {
      EqConstSound(r.bits, l, a);
      EvalConst(r.bits, a);
    } else if l == r {
      EvalConst([true], a);
    } else {
      EvalBin(Eq, l, r, a);
    }
  }

  // ----- Select

  function CreateSelect(c: Expr, t: Expr, f: Expr): (e: Expr)
    requires WellTyped(c) && Width(c) == BOOL && WellTyped(t) && WellTyped(f) && Width(t) == Width(f)
    ensures WellTyped(e) && Width(e) == Width(t)
  {
    if c.Const? then (if c.bits[0] then t else f)
    else if t == f then t
    else if Width(t) == BOOL && t.Const? then
      if t.bits[0] then CreateOr(c, f) else CreateAnd(CreateIsZero(c), f)
    else if Width(t) == BOOL && f.Const? then
      if f.bits[0] then CreateOr(CreateIsZero(c), t) else CreateAnd(c, t)
    else Select(c, t, f)
  }

  lemma SelectSound(c: Expr, t: Expr, f: Expr, a: Assignment)
    requires WellTyped(c) && Width(c) == BOOL && WellTyped(t) && WellTyped(f) && Width(t) == Width(f)
    ensures Same(if Holds(c, a) then t else f, CreateSelect(c, t, f), a)
  {
    hide CreateOr, CreateAnd, CreateIsZero, WellTyped, Width, Eval, Same;
    if c.Const? {
      SelectDecided(c, t, f, a);
    } else if t == f {
      SelectDecided(c, t, f, a);
    } else if Width(t) == BOOL && (t.Const? || f.Const?) {
      SelectBoolSound(c, t, f, a);
    } else {
      SelectPlain(c, t, f, a);
    }
  }

  lemma SelectDecided(c: Expr, t: Expr, f: Expr, a: Assignment)
    requires WellTyped(c) && Width(c) == BOOL && WellTyped(t) && WellTyped(f) && Width(t) == Width(f) && (c.Const? || t == f)
    ensures Same(if Holds(c, a) then t else f, CreateSelect(c, t, f), a)
  {
    hide Eval;
    if c.Const? {
      EvalConst(c.bits, a);
    }
  }

  lemma SelectPlain(c: Expr, t: Expr, f: Expr, a: Assignment)
    requires WellTyped(c) && Width(c) == BOOL && WellTyped(t) && WellTyped(f) && Width(t) == Width(f)
    ensures Same(if Holds(c, a) then t else f, Select(c, t, f), a)
  {
    hide Eval;
    EvalSelect(c, t, f, a);
  }

  lemma OneBitChoice(c: Bits, v: Bits)
    requires |c| == |v| == 1
    ensures Words.Or(c, v) == (if c[0] then [true] else v) && Words.And(c, v) == if c[0] then v else [false]
    ensures Words.Or([Zeros(1) == c], v) == (if c[0] then v else [true]) && Words.And([Zeros(1) == c], v) == if c[0]
      then [false] else v
  {
    assert c == [c[0]] && v == [v[0]] && Zeros(1) == [false];
  }

  /** A boolean choice with a constant alternative. */
  lemma SelectBoolSound(c: Expr, t: Expr, f: Expr, a: Assignment)
    requires WellTyped(c) && WellTyped(t) && WellTyped(f) && Width(c) == Width(t) == Width(f) == BOOL
    requires !c.Const? && t != f && (t.Const? || f.Const?)
    ensures Same(if Holds(c, a) then t else f, CreateSelect(c, t, f), a)
  {
    hide EqConst, CreateOr, CreateAnd, Eval, Words.Or, Words.And, Zeros;
    EqConstSound(Zeros(1), c, a);
    OneBitChoice(Eval(c, a), Eval(t, a));
    OneBitChoice(Eval(c, a), Eval(f, a));
    if t.Const? {
      assert t.bits == [t.bits[0]];
      EvalConst(t.bits, a);
      OrSound(c, f, a);
      AndSound(CreateIsZero(c), f, a);
    } else {
      assert f.bits == [f.bits[0]];
      EvalConst(f.bits, a);
      OrSound(CreateIsZero(c), t, a);
      AndSound(c, t, a);
    }
  }

  // ----- sums and differences with a constant on the left

  /** AddExpr::create(cl, r) for a constant cl. */
  function AddConst(c: Bits, r: Expr): (e: Expr)
    requires WellTyped(r) && |c| == Width(r) > 0
    ensures WellTyped(e) && Width(e) == Width(r)
    decreases r
  {
    if r.Const? then Const(Words.Add(c, r.bits))
    else if |c| == BOOL then XorConst(c, r)
    else if c == Zeros(|c|) then r
    else match r
      case Bin(Add, Const(k), x) => AddConst(Words.Add(c, k), x)
      case Bin(Sub, Const(k), x) => SubConst(Words.Add(c, k), x)
      case _ => Bin(Add, Const(c), r)
  }

  /** SubExpr::create(cl, r) for a constant cl. */
  function SubConst(c: Bits, r: Expr): (e: Expr)
    requires WellTyped(r) && |c| == Width(r) > 0
    ensures WellTyped(e) && Width(e) == Width(r)
    decreases r
  {
    if r.Const? then Const(Words.Sub(c, r.bits))
    else if |c| == BOOL then XorConst(c, r)
    else match r
      case Bin(Add, Const(k), x) => SubConst(Words.Sub(c, k), x)
      case Bin(Sub, Const(k), x) => AddConst(Words.Sub(c, k), x)
      case _ => Bin(Sub, Const(c), r)
  }

  /** Exclusive or with a constant; on booleans a sum and a difference come to the same. */
  function XorConst(c: Bits, r: Expr): (e: Expr)
    requires WellTyped(r) && |c| == Width(r) > 0
    ensures WellTyped(e) && Width(e) == Width(r)
  {
    if c == Zeros(|c|) then r else if |c| == BOOL then EqConst([false], r) else Bin(Xor, Const(c), r)
  }

  lemma XorConstSound(c: Bits, r: Expr, a: Assignment)
    requires WellTyped(r) && |c| == Width(r) == BOOL
    ensures Eval(XorConst(c, r), a) == [c[0] != Eval(r, a)[0]]
  {
    EqConstSound([false], r, a);
  }

  /** One-bit sums and differences, by cases. */
  lemma OneBit(c: Bits, v: Bits)
    requires |c| == |v| == 1
    ensures Words.Add(c, v) == Words.Sub(c, v) == [c[0] != v[0]]
  {
    assert c == [c[0]] && v == [v[0]];
    assert ToNat(c[1..]) == 0 && ToNat(v[1..]) == 0;
    var n := (if c[0] then 1 else 0) + (if v[0] then 1 else 0);
    assert FromInt(n / 2, 0) == [];
    var d := (if c[0] then 1 else 0) - (if v[0] then 1 else 0);
    assert FromInt(d / 2, 0) == [];
  }

  lemma {:induction false} AddConstSound(c: Bits, r: Expr, a: Assignment)
    requires WellTyped(r) && |c| == Width(r) > 0
    ensures Eval(AddConst(c, r), a) == Words.Add(c, Eval(r, a))
    decreases r
  {
    hide FromInt, ToNat, EqConst, Eval, SubConst;
    var v := Eval(r, a);
    if r.Const? {
      EvalConst(r.bits, a);
      EvalConst(Words.Add(c, r.bits), a);
    } else if |c| == BOOL {
      XorConstSound(c, r, a);
      OneBit(c, v);
    } else if c == Zeros(|c|) {
      ToNatZeros(|c|);
      AddZero(c, v);
    } else if r.Bin? && (r.op.Add? || r.op.Sub?) && r.l.Const? {
      var k, x := r.l.bits, r.r;
      EvalBin(r.op, r.l, x, a);
      EvalConst(k, a);
      if r.op.Add? {
        AddConstSound(Words.Add(c, k), x, a);
        AddAssoc(c, k, Eval(x, a));
      } else {
        SubConstSound(Words.Add(c, k), x, a);
        AddSubAssoc(c, k, Eval(x, a));
      }
    } else {
      assert AddConst(c, r) == Bin(Add, Const(c), r);
      EvalBin(Add, Const(c), r, a);
      EvalConst(c, a);
    }
  }

  lemma {:induction false} SubConstSound(c: Bits, r: Expr, a: Assignment)
    requires WellTyped(r) && |c| == Width(r) > 0
    ensures Eval(SubConst(c, r), a) == Words.Sub(c, Eval(r, a))
    decreases r
  {
    hide FromInt, ToNat, EqConst, Eval, AddConst;
    var v := Eval(r, a);
    if r.Const? {
      EvalConst(r.bits, a);
      EvalConst(Words.Sub(c, r.bits), a);
    } else if |c| == BOOL {
      XorConstSound(c, r, a);
      OneBit(c, v);
    } else if r.Bin? && (r.op.Add? || r.op.Sub?) && r.l.Const? {
      var k, x := r.l.bits, r.r;
      EvalBin(r.op, r.l, x, a);
      EvalConst(k, a);
      if r.op.Add? {
        SubConstSound(Words.Sub(c, k), x, a);
        SubAddAssoc(c, k, Eval(x, a));
      } else {
        AddConstSound(Words.Sub(c, k), x, a);
        SubSubAssoc(c, k, Eval(x, a));
      }
    } else {
      assert SubConst(c, r) == Bin(Sub, Const(c), r);
      EvalBin(Sub, Const(c), r, a);
      EvalConst(c, a);
    }
  }

  /** SubExpr::create(l, c) for a constant c: l + (0 - c). */
  function CreateSubConst(l: Expr, c: Bits): (e: Expr)
    requires WellTyped(l) && |c| == Width(l) > 0
    ensures WellTyped(e) && Width(e) == Width(l)
  {
    if l.Const? then Const(Words.Sub(l.bits, c))
    else AddConst(Words.Sub(Zeros(|c|), c), l)
  }

  lemma SubFromSound(l: Expr, c: Bits, a: Assignment)
    requires WellTyped(l) && |c| == Width(l) > 0
    ensures Eval(CreateSubConst(l, c), a) == Words.Sub(Eval(l, a), c)
  {
    AddConstSound(Words.Sub(Zeros(|c|), c), l, a);
    SubAsAdd(Eval(l, a), c);
  }

  // ----- unsigned comparisons

  function CreateUlt(l: Expr, r: Expr): (e: Expr)
    requires WellTyped(l) && WellTyped(r) && Width(l) == Width(r) > 0
    ensures WellTyped(e) && Width(e) == BOOL
  {
    if l.Const? && r.Const? then Const([ToNat(l.bits) < ToNat(r.bits)])
    else if Width(l) == BOOL then CreateAnd(CreateIsZero(l), r)
    else Bin(Ult, l, r)
  }

  /** UgeExpr::create(l, r), which is UleExpr::create(r, l). */
  function CreateUge(l: Expr, r: Expr): (e: Expr)
    requires WellTyped(l) && WellTyped(r) && Width(l) == Width(r) > 0
    ensures WellTyped(e) && Width(e) == BOOL
  {
    if l.Const? && r.Const? then Const([ToNat(r.bits) <= ToNat(l.bits)])
    else if Width(l) == BOOL then CreateOr(CreateIsZero(r), l)
    else Bin(Ule, r, l)
  }

  lemma OneBitValue(v: Bits)
    requires |v| == 1
    ensures ToNat(v) == if v[0] then 1 else 0
  {
    assert ToNat(v[1..]) == 0;
  }

  lemma UltSound(l: Expr, r: Expr, a: Assignment)
    requires WellTyped(l) && WellTyped(r) && Width(l) == Width(r) > 0
    ensures Eval(CreateUlt(l, r), a) == [ToNat(Eval(l, a)) < ToNat(Eval(r, a))]
  {
    hide Eval, ToNat, CreateAnd, CreateOr;
    EvalBin(Ult, l, r, a);
    if l.Const? && r.Const? {
      EvalConst(l.bits, a);
      EvalConst(r.bits, a);
      EvalConst([ToNat(l.bits) < ToNat(r.bits)], a);
    } else if Width(l) == BOOL {
      OneBitValue(Eval(l, a));
      OneBitValue(Eval(r, a));
      EqConstSound(Zeros(1), l, a);
      AndSound(CreateIsZero(l), r, a);
    }
  }

  lemma UgeSound(l: Expr, r: Expr, a: Assignment)
    requires WellTyped(l) && WellTyped(r) && Width(l) == Width(r) > 0
    ensures Eval(CreateUge(l, r), a) == [ToNat(Eval(l, a)) >= ToNat(Eval(r, a))]
  {
    hide Eval, ToNat, CreateAnd, CreateOr;
    EvalBin(Ule, r, l, a);
    if l.Const? && r.Const? {
      EvalConst(l.bits, a);
      EvalConst(r.bits, a);
      EvalConst([ToNat(r.bits) <= ToNat(l.bits)], a);
    } else if Width(l) == BOOL {
      OneBitValue(Eval(l, a));
      OneBitValue(Eval(r, a));
      EqConstSound(Zeros(1), r, a);
      OrSound(CreateIsZero(r), l, a);
    }
  }

  // ----- Read

  /** The updates down to the first one whose index may or may not be the index read. */
  datatype Scan = Hit(value: Expr) | Miss | Maybe

  function ScanUpdates(u: UpdateNode, index: Expr): (s: Scan)
    requires UpdatesTyped(u) && WellTyped(index) && IndexWidth(u, Width(index))
  {
    match u
    case NoUpdate => Miss
    case Update(next, i, v) =>
      var cond := CreateEq(index, i);
      if cond.Const? then (if cond.bits[0] then Hit(v) else ScanUpdates(next, index)) else Maybe
  }

  /** Every index in the list has the width of the array's domain. */
  predicate IndexWidth(u: UpdateNode, w: nat) {
    match u
    case NoUpdate => true
    case Update(next, i, _) => Width(i) == w && IndexWidth(next, w)
  }

  function CreateRead(root: Array, head: UpdateNode, index: Expr): (e: Expr)
    requires root.IsConstantArray() ==> |root.constantValues| == root.size
    requires UpdatesTyped(head) && WellTyped(index) && IndexWidth(head, Width(index))
    ensures WellTyped(e) && Width(e) == INT8
  {
    ScanTyped(head, index);
    match ScanUpdates(head, index)
    case Hit(v) => v
    case Miss =>
      if root.IsConstantArray() && index.Const? && ToNat(index.bits) < root.size
      then Const(root.constantValues[ToNat(index.bits)])
      else Read(root, head, index)
    case Maybe => Read(root, head, index)
  }

  lemma {:induction false} ScanTyped(u: UpdateNode, index: Expr)
    requires UpdatesTyped(u) && WellTyped(index) && IndexWidth(u, Width(index))
    ensures ScanUpdates(u, index).Hit? ==> WellTyped(ScanUpdates(u, index).value) && Width(ScanUpdates(u, index).value) == INT8
    decreases u
  {
    if u.Update? {
      ScanTyped(u.next, index);
    }
  }

  /** A hit is the byte read; after a miss the list says nothing about the index. */
  lemma {:induction false} ScanSound(u: UpdateNode, index: Expr, init: Byte, a: Assignment)
    requires UpdatesTyped(u) && WellTyped(index) && IndexWidth(u, Width(index))
    ensures var s := ScanUpdates(u, index);
      var v := EvalRead(u, ToNat(Eval(index, a)), init, a);
      && (s.Hit? ==> WellTyped(s.value) && v == Eval(s.value, a))
      && (s.Miss? ==> v == init)
    decreases u
  {
    if u.Update? {
      EqSound(index, u.idx, a);
      if Eval(index, a) != Eval(u.idx, a) && ToNat(Eval(index, a)) == ToNat(Eval(u.idx, a)) {
        ToNatInjective(Eval(index, a), Eval(u.idx, a));
      }
      ScanTyped(u.next, index);
      ScanSound(u.next, index, init, a);
    }
  }

  lemma ReadSound(root: Array, head: UpdateNode, index: Expr, a: Assignment)
    requires root.IsConstantArray() ==> |root.constantValues| == root.size
    requires UpdatesTyped(head) && WellTyped(index) && IndexWidth(head, Width(index))
    ensures var i := ToNat(Eval(index, a));
      Eval(CreateRead(root, head, index), a) == EvalRead(head, i, InitialByte(root, i, a), a)
  {
    var i := ToNat(Eval(index, a));
    ScanSound(head, index, InitialByte(root, i, a), a);
  }
}
