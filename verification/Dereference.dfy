/** From an address to an access: the offset of a pointer in an object that it was resolved to can be read and written. */
module Dereferences {
  import opened Words
  import opened Expressions
  import opened ExprBuilder
  import opened Memory
  import opened Resolution
  import opened WideAccess

  /** Canonical sums: neither in the expression nor in what can be cut out of it is a constant added to a constant. */
  predicate Canonical(e: Expr) {
    match e
    case Bin(op, l, r) => (op.Add? || op.Sub?) && l.Const? ==> !r.Const? && Canonical(r)
    case Concat(l, r) => Canonical(l) && Canonical(r)
    case Extract(x, _, _) => Canonical(x)
    case _ => true
  }

  lemma {:induction false} CanonicalNeverConst(e: Expr)
    requires Canonical(e) && !e.Const?
    ensures NeverConst(e)
  {
    if e.Bin? && (e.op.Add? || e.op.Sub?) && e.l.Const? {
      CanonicalNeverConst(e.r);
    }
  }

  lemma {:induction false} SumCanonical(c: Bits, e: Expr)
    requires WellTyped(e) && Canonical(e) && |c| == Width(e) > BOOL
    ensures Canonical(AddConst(c, e)) && Canonical(SubConst(c, e))
    decreases e
  {
    if e.Bin? && (e.op.Add? || e.op.Sub?) && e.l.Const? {
      SumCanonical(Words.Add(c, e.l.bits), e.r);
      SumCanonical(Words.Sub(c, e.l.bits), e.r);
    }
  }

  lemma {:induction false} ExtractCanonical(e: Expr, off: nat, w: nat)
    requires WellTyped(e) && w > 0 && off + w <= Width(e) && Canonical(e)
    ensures Canonical(CreateExtract(e, off, w))
    decreases ConcatDepth(e), 0
  {
    hide CreateConcat;
    if w != Width(e) && e.Concat? {
      var x, y := e.left, e.right;
      if off >= Width(y) {
        ExtractCanonical(x, off - Width(y), w);
      } else if off + w <= Width(y) {
        ExtractCanonical(y, off, w);
      } else {
        ExtractCanonical(x, 0, w - Width(y) + off);
        ExtractCanonical(y, off, Width(y) - off);
        ConcatCanonical(CreateExtract(x, 0, w - Width(y) + off), CreateExtract(y, off, Width(y) - off));
      }
    }
  }

  lemma {:induction false} ConcatCanonical(l: Expr, r: Expr)
    requires WellTyped(l) && WellTyped(r) && Canonical(l) && Canonical(r)
    ensures Canonical(CreateConcat(l, r))
    decreases ConcatDepth(l) + ConcatDepth(r), 1
  {
    hide CreateExtract;
    if !(l.Const? && r.Const?) && l.Extract? && r.Extract? && l.expr == r.expr && r.offset + r.width == l.offset {
      ExtractCanonical(l.expr, r.offset, l.width + r.width);
    }
  }

  lemma TruncatedCanonical(e: Expr)
    requires WellTyped(e) && Canonical(e) && Width(e) >= INT32
    ensures Canonical(CreateZExt(e, INT32))
  {
    hide CreateExtract;
    if INT32 < Width(e) {
      ExtractCanonical(e, 0, INT32);
    }
  }

  /** The address lies in the object, `n` bytes before its end or earlier. */
  predicate Reaches(mo: MemoryObject, n: nat, p: Expr, a: Assignment)
    requires WellTyped(p)
  {
    mo.address <= AddressOf(p, a) && AddressOf(p, a) + n <= mo.address + mo.size
  }

  /** The 32 bit offset that the memory layer sees is the distance from the start of the object. */
  lemma OffsetValue(mo: MemoryObject, p: Expr, n: nat, a: Assignment)
    requires WellTyped(p) && Width(p) >= INT32 && Fits(mo, Width(p)) && mo.size < Pow2(INT32) && Reaches(mo, n, p, a)
    ensures Target(OffsetExpr(mo, p), a) == AddressOf(p, a) - mo.address
  {
    hide Eval, WellTyped, CreateSubConst, CreateZExt, ToNat, FromInt, Words.Sub, Pow2;
    var w := Width(p);
    var base := FromInt(mo.address, w);
    var offset := OffsetExpr(mo, p);
    SubFromSound(p, base, a);
    SubValue(Eval(p, a), base);
    ZExtSound(offset, INT32, a);
    if INT32 < w {
      LowBits(Eval(offset, a), INT32);
    } else {
      assert Eval(offset, a)[..INT32] == Eval(offset, a) && Eval(offset, a) + Zeros(0) == Eval(offset, a);
    }
  }

  lemma {:induction false} LowBits(b: Bits, w: nat)
    requires w <= |b| && ToNat(b) < Pow2(w)
    ensures ToNat(b[..w]) == ToNat(b)
  {
    if w > 0 {
      LowBits(b[1..], w - 1);
      assert b[..w][1..] == b[1..][..w - 1];
    }
  }

  /** A canonical pointer that may reach `n` bytes of the object has an offset that can be dereferenced. */
  lemma ResolvedOffset(mo: MemoryObject, p: Expr, n: nat, a: Assignment)
    requires WellTyped(p) && Canonical(p) && Width(p) >= INT32 && Fits(mo, Width(p)) && mo.size < Pow2(INT32) &&
      Reaches(mo, n, p, a)
    ensures OffsetOk(CreateZExt(OffsetExpr(mo, p), INT32), n, mo.size)
  {
    hide Pow2, FromInt, ToNat, AddConst, CreateZExt;
    OffsetValue(mo, p, n, a);
    OffsetCanonical(mo, p);
    var offset := CreateZExt(OffsetExpr(mo, p), INT32);
    if offset.Const? {
      ConstantOffset(offset, a);
    } else {
      CanonicalNeverConst(offset);
    }
  }

  lemma OffsetCanonical(mo: MemoryObject, p: Expr)
    requires WellTyped(p) && Canonical(p) && Width(p) >= INT32
    ensures Canonical(CreateZExt(OffsetExpr(mo, p), INT32))
  {
    hide Pow2, FromInt, AddConst, CreateZExt;
    var c := FromInt(mo.address, Width(p));
    if !p.Const? {
      SumCanonical(Words.Sub(Zeros(|c|), c), p);
    }
    TruncatedCanonical(OffsetExpr(mo, p));
  }

  /** Reads `w` bits at an address that may lie in the object: wherever it does, the result is what is there. */
  method Load(os: ObjectState, p: Expr, w: nat, little: bool, ghost b: Assignment) returns (e: Expr)
    requires os.Valid() && WellTyped(p) && Canonical(p) && Width(p) >= INT32 && WholeBytes(w)
    requires Fits(os.mo, Width(p)) && os.mo.size < Pow2(INT32) && Reaches(os.mo, w / 8, p, b)
    modifies os.Repr
    ensures os.Valid() && os.Kept() && WellTyped(e) && Width(e) == w
    ensures forall j: nat, a: Assignment :: j < os.mo.size ==> os.ByteValue(j, a) == old(os.ByteValue(j, a))
    ensures forall j: nat, a: Assignment ::
      j < os.mo.size && Reaches(os.mo, w / 8, p, a) && AddressOf(p, a) <= os.mo.address + j < AddressOf(p, a) + w / 8 ==>
      var v, i, n := Eval(e, a), os.mo.address + j - AddressOf(p, a), w / 8;
      old(os.ByteValue(j, a)) == if little then v[8 * i..8 * i + 8] else v[8 * (n - 1 - i)..8 * (n - 1 - i) + 8]
  {
    hide Eval, WellTyped, Width, CreateZExt, OffsetOk, Pow2, AddressOf, Target, Fits, ByteOf,
      ObjectState.Valid, ObjectState.Allocated, ObjectState.ByteValue;
    var offset := OffsetExpr(os.mo, p);
    ResolvedOffset(os.mo, p, w / 8, b);
    forall a: Assignment | Reaches(os.mo, w / 8, p, a) ensures Target(offset, a) == AddressOf(p, a) - os.mo.address {
      OffsetValue(os.mo, p, w / 8, a);
    }
    e := WideAccess.Read(os, offset, w, little);
  }

  /** Writes a value at such an address: wherever it lies in the object, the bytes there are those of the value. */
  method Store(os: ObjectState, p: Expr, value: Expr, little: bool, ghost b: Assignment)
    requires os.Valid() && WellTyped(p) && Canonical(p) && Width(p) >= INT32 && WellTyped(value) && AccessWidth(Width(value))
    requires Fits(os.mo, Width(p)) && os.mo.size < Pow2(INT32) && Reaches(os.mo, ByteCount(Width(value)), p, b)
    modifies os.Repr
    ensures os.Valid() && os.Kept()
    ensures forall j: nat, a: Assignment :: j < os.mo.size && Reaches(os.mo, ByteCount(Width(value)), p, a) ==>
      var s, i, n := Stored(Eval(value, a)), os.mo.address + j - AddressOf(p, a), ByteCount(Width(value));
      os.ByteValue(j, a) ==
        if i < 0 || i >= n then old(os.ByteValue(j, a))
        else if little then s[8 * i..8 * i + 8]
        else s[8 * (n - 1 - i)..8 * (n - 1 - i) + 8]
  {
    hide Eval, WellTyped, Width, CreateZExt, OffsetOk, Pow2, AddressOf, Target, Fits, After, Stored,
      ObjectState.Valid, ObjectState.Allocated, ObjectState.ByteValue;
    var offset := OffsetExpr(os.mo, p);
    ResolvedOffset(os.mo, p, ByteCount(Width(value)), b);
    forall a: Assignment | Reaches(os.mo, ByteCount(Width(value)), p, a) ensures Target(offset, a) == AddressOf(p, a) - os.mo.address {
      OffsetValue(os.mo, p, ByteCount(Width(value)), a);
    }
    WideAccess.Write(os, offset, value, little);
  }
}
