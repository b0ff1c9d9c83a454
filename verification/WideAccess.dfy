/** Reads and writes of any width, in either byte order, at constant and at symbolic offsets. */
module WideAccess {
  import opened Words
  import opened Expressions
  import opened ExprBuilder
  import opened ObjectCache
  import opened Memory

  /** Where byte `i` of an `n`-byte value lives; its own inverse. */
  function Pos(i: nat, n: nat, little: bool): (p: nat)
    requires i < n
    ensures p < n
  {
    if little then i else n - i - 1
  }

  function ByteOf(v: Bits, i: nat): Byte
    requires 8 * i + 8 <= |v|
  {
    v[8 * i..8 * i + 8]
  }

  predicate WholeBytes(w: nat) { w > 0 && w % 8 == 0 }

  /** One bit, or whole bytes: the only widths that can be read and written. */
  predicate AccessWidth(w: nat) { w == BOOL || WholeBytes(w) }

  function ByteCount(w: nat): nat
    requires AccessWidth(w)
  {
    if w == BOOL then 1 else w / 8
  }

  /** What a value looks like in memory: a boolean fills its byte with zeros. */
  function Stored(v: Bits): (s: Bits)
    requires AccessWidth(|v|)
    ensures |s| == 8 * ByteCount(|v|) && s[..|v|] == v
  {
    if |v| == BOOL then v + Zeros(7) else v
  }

  /** Byte `j` of memory after the bytes of `s` were stored at `offset`. */
  function After(s: Bits, offset: nat, j: nat, little: bool, was: Byte): Byte
    requires WholeBytes(|s|)
  {
    if offset <= j < offset + |s| / 8 then ByteOf(s, Pos(j - offset, |s| / 8, little)) else was
  }

  /** The same when only the first `i` bytes of `s` have been stored. */
  function Partly(s: Bits, i: nat, offset: nat, j: nat, little: bool, was: Byte): Byte
    requires WholeBytes(|s|)
  {
    if offset <= j < offset + |s| / 8 && Pos(j - offset, |s| / 8, little) < i then After(s, offset, j, little, was) else was
  }

  /** Storing one more byte. */
  lemma PartlyMore(s: Bits, i: nat, offset: nat, j: nat, little: bool, was: Byte)
    requires WholeBytes(|s|) && i < |s| / 8
    ensures Partly(s, i + 1, offset, j, little, was) ==
      if j == offset + Pos(i, |s| / 8, little) then ByteOf(s, i) else Partly(s, i, offset, j, little, was)
  {
  }

  lemma PartlyEnds(s: Bits, offset: nat, j: nat, little: bool, was: Byte)
    requires WholeBytes(|s|)
    ensures Partly(s, 0, offset, j, little, was) == was
    ensures Partly(s, |s| / 8, offset, j, little, was) == After(s, offset, j, little, was)
  {
  }

  // The byte orders: little-endian from the lowest address up, big-endian from the highest address down.

  lemma AfterInOrder(s: Bits, offset: nat, j: nat, little: bool, was: Byte)
    requires WholeBytes(|s|)
    ensures var n := |s| / 8;
      After(s, offset, j, little, was) ==
      if j < offset || j >= offset + n then was
      else if little then s[8 * (j - offset)..8 * (j - offset) + 8]
      else s[8 * (offset + n - 1 - j)..8 * (offset + n - 1 - j) + 8]
  {
  }

  lemma PosInOrder(v: Bits, offset: nat, j: nat, little: bool) returns (k: nat)
    requires WholeBytes(|v|) && offset <= j < offset + |v| / 8
    ensures k < |v| / 8 && offset + Pos(k, |v| / 8, little) == j
    ensures ByteOf(v, k) == if little then v[8 * (j - offset)..8 * (j - offset) + 8]
      else v[8 * (offset + |v| / 8 - 1 - j)..8 * (offset + |v| / 8 - 1 - j) + 8]
  {
    k := if little then j - offset else offset + |v| / 8 - 1 - j;
  }

  lemma InOrderAtPos(v: Bits, offset: nat, k: nat, little: bool)
    requires WholeBytes(|v|) && k < |v| / 8
    ensures var n := |v| / 8; var j := offset + Pos(k, n, little);
      offset <= j < offset + n &&
      (if little then v[8 * (j - offset)..8 * (j - offset) + 8]
       else v[8 * (offset + n - 1 - j)..8 * (offset + n - 1 - j) + 8]) == ByteOf(v, k)
  {
  }

  /** A value is determined by its bytes. */
  lemma BytesDetermine(v: Bits, u: Bits)
    requires |v| == |u| && |v| % 8 == 0
    requires forall i: nat :: 8 * i + 8 <= |v| ==> ByteOf(v, i) == ByteOf(u, i)
    ensures v == u
  {
    forall k | 0 <= k < |v| ensures v[k] == u[k] {
      assert ByteOf(v, k / 8)[k % 8] == ByteOf(u, k / 8)[k % 8];
    }
  }

  // ----- constant offsets

  /** write16, write32 and write64: the bytes of a machine word. */
  method WriteWord(os: ObjectState, offset: nat, value: Bits, little: bool)
    requires os.Valid() && WholeBytes(|value|) && offset + |value| / 8 <= os.mo.size
    modifies os.Repr
    ensures os.Valid() && os.Kept()
    ensures forall j: nat, a: Assignment :: j < os.mo.size ==>
      var s, o, n := value, offset, |value| / 8;
      os.ByteValue(j, a) ==
        if j < o || j >= o + n then old(os.ByteValue(j, a))
        else if little then s[8 * (j - o)..8 * (j - o) + 8]
        else s[8 * (o + n - 1 - j)..8 * (o + n - 1 - j) + 8]
  {
    hide ByteAt, CacheInv, Shaped, Partly, After, Pos, ByteOf;
    var n := |value| / 8;
    var i := 0;
    forall j: nat, was: Byte ensures Partly(value, 0, offset, j, little, was) == was { PartlyEnds(value, offset, j, little, was); }
    while i != n
      invariant 0 <= i <= n && os.Valid() && os.Kept()
      invariant forall j: nat, a: Assignment :: j < os.mo.size ==>
        os.ByteValue(j, a) == Partly(value, i, offset, j, little, old(os.ByteValue(j, a)))
    {
      os.Write8Concrete(offset + Pos(i, n, little), ByteOf(value, i));
      forall j: nat, a: Assignment | j < os.mo.size
        ensures os.ByteValue(j, a) == Partly(value, i + 1, offset, j, little, old(os.ByteValue(j, a)))
      {
        PartlyMore(value, i, offset, j, little, old(os.ByteValue(j, a)));
      }
      i := i + 1;
    }
    forall j: nat, was: Byte ensures Partly(value, n, offset, j, little, was) == After(value, offset, j, little, was) {
      PartlyEnds(value, offset, j, little, was);
    }
    forall j: nat, a: Assignment | j < os.mo.size
      ensures var s, o, n := value, offset, |value| / 8;
        os.ByteValue(j, a) ==
          if j < o || j >= o + n then old(os.ByteValue(j, a))
          else if little then s[8 * (j - o)..8 * (j - o) + 8]
          else s[8 * (o + n - 1 - j)..8 * (o + n - 1 - j) + 8]
    {
      AfterInOrder(value, offset, j, little, old(os.ByteValue(j, a)));
    }
  }

  predicate IsPowerOfTwoUpTo64(w: nat) { w in {1, 2, 4, 8, 16, 32, 64} }

  method WriteAt(os: ObjectState, offset: nat, value: Expr, little: bool)
    requires os.Valid() && WellTyped(value) && AccessWidth(Width(value)) && offset + ByteCount(Width(value)) <= os.mo.size
    modifies os.Repr
    ensures os.Valid() && os.Kept()
    ensures forall j: nat, a: Assignment :: j < os.mo.size ==>
      var s, o, n := Stored(Eval(value, a)), offset, ByteCount(Width(value));
      os.ByteValue(j, a) ==
        if j < o || j >= o + n then old(os.ByteValue(j, a))
        else if little then s[8 * (j - o)..8 * (j - o) + 8]
        else s[8 * (o + n - 1 - j)..8 * (o + n - 1 - j) + 8]
  {
    hide After, ByteAt, CacheInv, Shaped, Eval, WellTyped, CreateZExt, CreateExtract, EvalRead,
      ObjectState.Valid, ObjectState.Allocated, ObjectState.ByteValue;
    var w := Width(value);
    if value.Const? && IsPowerOfTwoUpTo64(w) {
      WriteWord(os, offset, Stored(value.bits), little);
      forall a: Assignment ensures Eval(value, a) == value.bits { EvalConst(value.bits, a); }
    } else if w == BOOL {
      os.Write8(offset, CreateZExt(value, INT8));
      forall a: Assignment ensures Eval(CreateZExt(value, INT8), a) == Stored(Eval(value, a)) {
        ZExtSound(value, INT8, a);
      }
    } else {
      WriteBytesAt(os, offset, value, little);
      forall j: nat, a: Assignment | j < os.mo.size
        ensures var s, o, n := Eval(value, a), offset, Width(value) / 8;
          os.ByteValue(j, a) ==
            if j < o || j >= o + n then old(os.ByteValue(j, a))
            else if little then s[8 * (j - o)..8 * (j - o) + 8]
            else s[8 * (o + n - 1 - j)..8 * (o + n - 1 - j) + 8]
      {
        AfterInOrder(Eval(value, a), offset, j, little, old(os.ByteValue(j, a)));
      }
    }
  }

  method WriteBytesAt(os: ObjectState, offset: nat, value: Expr, little: bool)
    requires os.Valid() && WellTyped(value) && WholeBytes(Width(value)) && offset + Width(value) / 8 <= os.mo.size
    modifies os.Repr
    ensures os.Valid() && os.Kept()
    ensures forall j: nat, a: Assignment :: j < os.mo.size ==>
      os.ByteValue(j, a) == After(Eval(value, a), offset, j, little, old(os.ByteValue(j, a)))
  {
    hide ByteAt, CacheInv, Shaped, Eval, WellTyped, Width, CreateExtract, EvalRead, Partly, After, Pos, ByteOf,
      ObjectState.Valid, ObjectState.Allocated, ObjectState.ByteValue;
    var n := Width(value) / 8;
    var i := 0;
    forall j: nat, a: Assignment, was: Byte ensures Partly(Eval(value, a), 0, offset, j, little, was) == was {
      PartlyEnds(Eval(value, a), offset, j, little, was);
    }
    while i != n
      invariant 0 <= i <= n && os.Valid() && os.Kept()
      invariant forall j: nat, a: Assignment :: j < os.mo.size ==>
        os.ByteValue(j, a) == Partly(Eval(value, a), i, offset, j, little, old(os.ByteValue(j, a)))
    {
      os.Write8(offset + Pos(i, n, little), CreateExtract(value, 8 * i, INT8));
      forall j: nat, a: Assignment | j < os.mo.size
        ensures os.ByteValue(j, a) == Partly(Eval(value, a), i + 1, offset, j, little, old(os.ByteValue(j, a)))
      {
        ByteExtracted(value, i, a);
        PartlyMore(Eval(value, a), i, offset, j, little, old(os.ByteValue(j, a)));
      }
      i := i + 1;
    }
    forall j: nat, a: Assignment,
      was: Byte ensures Partly(Eval(value, a), n, offset, j, little, was) == After(Eval(value, a), offset, j, little, was) {
      PartlyEnds(Eval(value, a), offset, j, little, was);
    }
  }

  lemma ByteExtracted(value: Expr, i: nat, a: Assignment)
    requires WellTyped(value) && 8 * i + 8 <= Width(value)
    ensures Eval(CreateExtract(value, 8 * i, INT8), a) == ByteOf(Eval(value, a), i)
  {
    hide Eval, WellTyped, Width, CreateExtract;
    ExtractSound(value, 8 * i, INT8, a);
  }

  /** Prepending one more significant byte. */
  lemma PrependByte(b: Expr, res: Expr, i: nat, a: Assignment)
    requires WellTyped(b) && Width(b) == INT8 && (i > 0 ==> WellTyped(res) && Width(res) == 8 * i)
    ensures var e := if i > 0 then CreateConcat(b, res) else b;
      && WellTyped(e) && Width(e) == 8 * (i + 1)
      && ByteOf(Eval(e, a), i) == Eval(b, a)
      && forall k: nat :: k < i ==> ByteOf(Eval(e, a), k) == ByteOf(Eval(res, a), k)
  {
    hide Eval, WellTyped, Width, CreateConcat;
    if i > 0 {
      ConcatSound(b, res, a);
    }
  }

  method ReadAt(os: ObjectState, offset: nat, w: nat, little: bool) returns (e: Expr)
    requires os.Valid() && AccessWidth(w) && offset + ByteCount(w) <= os.mo.size
    modifies os.Repr
    ensures os.Valid() && os.Kept() && WellTyped(e) && Width(e) == w
    ensures forall j: nat, a: Assignment :: j < os.mo.size ==> os.ByteValue(j, a) == old(os.ByteValue(j, a))
    ensures w == BOOL ==> forall a: Assignment :: Eval(e, a) == old(os.ByteValue(offset, a))[..1]
    ensures forall j: nat, a: Assignment :: w != BOOL && j < os.mo.size && offset <= j < offset + w / 8 ==>
      var v, o, n := Eval(e, a), offset, w / 8;
      old(os.ByteValue(j, a)) == if little then v[8 * (j - o)..8 * (j - o) + 8] else v[8 * (o + n - 1 - j)..8 * (o + n - 1 - j) + 8]
  {
    hide ByteOf, Pos, ByteAt, CacheInv, Shaped, Eval, WellTyped, CreateConcat, CreateExtract, EvalRead,
      ObjectState.Valid, ObjectState.Allocated, ObjectState.ByteValue;
    if w == BOOL {
      var b := os.Read8(offset);
      e := CreateExtract(b, 0, BOOL);
      forall a: Assignment ensures Eval(e, a) == Eval(b, a)[..1] {
        ExtractSound(b, 0, BOOL, a);
      }
    } else {
      e := ReadBytesAt(os, offset, w, little);
      forall j: nat, a: Assignment | w != BOOL && j < os.mo.size && offset <= j < offset + w / 8
        ensures var v, o, n := Eval(e, a), offset, w / 8;
          old(os.ByteValue(j, a)) == if little then v[8 * (j - o)..8 * (j - o) + 8] else v[8 * (o + n - 1 - j)..8 * (o + n - 1 - j) + 8]
      {
        ghost var k := PosInOrder(Eval(e, a), offset, j, little);
        assert ByteOf(Eval(e, a), k) == old(os.ByteValue(offset + Pos(k, w / 8, little), a));
      }
    }
  }

  method ReadBytesAt(os: ObjectState, offset: nat, w: nat, little: bool) returns (e: Expr)
    requires os.Valid() && WholeBytes(w) && offset + w / 8 <= os.mo.size
    modifies os.Repr
    ensures os.Valid() && os.Kept() && WellTyped(e) && Width(e) == w
    ensures forall j: nat, a: Assignment :: j < os.mo.size ==> os.ByteValue(j, a) == old(os.ByteValue(j, a))
    ensures forall a: Assignment, k: nat :: k < w / 8 ==>
      ByteOf(Eval(e, a), k) == old(os.ByteValue(offset + Pos(k, w / 8, little), a))
  {
    hide ByteAt, CacheInv, Shaped, Eval, WellTyped, Width, CreateConcat, EvalRead,
      ObjectState.Valid, ObjectState.Allocated, ObjectState.ByteValue;
    var n := w / 8;
    var i := 0;
    e := TRUE;
    while i != n
      invariant 0 <= i <= n && os.Valid() && os.Kept()
      invariant i > 0 ==> WellTyped(e) && Width(e) == 8 * i
      invariant forall j: nat, a: Assignment :: j < os.mo.size ==> os.ByteValue(j, a) == old(os.ByteValue(j, a))
      invariant forall a: Assignment, k: nat :: k < i ==>
        ByteOf(Eval(e, a), k) == old(os.ByteValue(offset + Pos(k, n, little), a))
    {
      label before:
      var b := os.Read8(offset + Pos(i, n, little));
      ghost var was := e;
      e := if i > 0 then CreateConcat(b, e) else b;
      forall a: Assignment, k: nat | k < i + 1
        ensures ByteOf(Eval(e, a), k) == old(os.ByteValue(offset + Pos(k, n, little), a))
      {
        PrependByte(b, was, i, a);
        if k == i {
          assert old@before(os.ByteValue(offset + Pos(k, n, little), a)) == old(os.ByteValue(offset + Pos(k, n, little), a));
        } else {
          assert ByteOf(Eval(was, a), k) == old(os.ByteValue(offset + Pos(k, n, little), a));
        }
      }
      i := i + 1;
    }
  }

  // ----- symbolic offsets

  /** Canonical sums do not have two constant operands, so adding a constant to a non-constant
      offset cannot fold to a constant. */
  predicate NeverConst(e: Expr) {
    !e.Const? && (e.Bin? && (e.op.Add? || e.op.Sub?) && e.l.Const? ==> NeverConst(e.r))
  }

  /** Adding to or subtracting from a constant keeps that form. */
  lemma {:induction false} SumNeverConst(c: Bits, e: Expr)
    requires WellTyped(e) && NeverConst(e) && |c| == Width(e) > BOOL
    ensures NeverConst(AddConst(c, e)) && NeverConst(SubConst(c, e))
    decreases e
  {
    if e.Bin? && e.op.Add? && e.l.Const? {
      SumNeverConst(Words.Add(c, e.l.bits), e.r);
      SumNeverConst(Words.Sub(c, e.l.bits), e.r);
    } else if e.Bin? && e.op.Sub? && e.l.Const? {
      SumNeverConst(Words.Add(c, e.l.bits), e.r);
      SumNeverConst(Words.Sub(c, e.l.bits), e.r);
    }
  }

  /** The offset of byte `p`: AddExpr::create(offset, p) with the constant moved to the left. */
  function ByteOffset(offset: Expr, p: nat): (e: Expr)
    requires WellTyped(offset) && Width(offset) > 0
    ensures WellTyped(e) && Width(e) == Width(offset)
  {
    AddConst(FromInt(p, Width(offset)), offset)
  }

  lemma ByteOffsetNeverConst(offset: Expr, p: nat)
    requires WellTyped(offset) && Width(offset) > BOOL && NeverConst(offset)
    ensures !ByteOffset(offset, p).Const?
  {
    SumNeverConst(FromInt(p, Width(offset)), offset);
  }

  lemma ByteOffsetValue(offset: Expr, p: nat, size: nat, a: Assignment)
    requires WellTyped(offset) && Width(offset) > 0
    requires ToNat(Eval(offset, a)) + p < size < Pow2(Width(offset))
    ensures ToNat(Eval(ByteOffset(offset, p), a)) == ToNat(Eval(offset, a)) + p
  {
    hide Pow2, FromInt, ToNat, Eval, AddConst;
    var w := Width(offset);
    AddConstSound(FromInt(p, w), offset, a);
    assert ToNat(FromInt(p, w)) == p;
    assert ToNat(FromInt(p + ToNat(Eval(offset, a)), w)) == p + ToNat(Eval(offset, a));
  }

  /** The offset a pointer has under `a`, truncated to 32 bits. */
  function Target(pointer: Expr, a: Assignment): nat
    requires WellTyped(pointer)
  {
    ToNat(Eval(CreateZExt(pointer, INT32), a))
  }

  /** The accesses at `offset` under `a` stay inside the object. */
  ghost predicate InBounds(offset: Expr, n: nat, size: nat, a: Assignment)
    requires WellTyped(offset)
  {
    ToNat(Eval(offset, a)) + n <= size
  }

  /** An offset that can be dereferenced: constant and inside, or symbolic and in canonical form. */
  ghost predicate OffsetOk(offset: Expr, n: nat, size: nat)
    requires WellTyped(offset)
  {
    if offset.Const? then ToNat(offset.bits) + n <= size else NeverConst(offset)
  }

  method Write(os: ObjectState, pointer: Expr, value: Expr, little: bool)
    requires os.Valid() && WellTyped(pointer) && WellTyped(value) && AccessWidth(Width(value))
    requires OffsetOk(CreateZExt(pointer, INT32), ByteCount(Width(value)), os.mo.size)
    modifies os.Repr
    ensures os.Valid() && os.Kept()
    ensures forall j: nat, a: Assignment :: j < os.mo.size && Target(pointer, a) + ByteCount(Width(value)) <= os.mo.size ==>
      var s, o, n := Stored(Eval(value, a)), Target(pointer, a), ByteCount(Width(value));
      os.ByteValue(j, a) ==
        if j < o || j >= o + n then old(os.ByteValue(j, a))
        else if little then s[8 * (j - o)..8 * (j - o) + 8]
        else s[8 * (o + n - 1 - j)..8 * (o + n - 1 - j) + 8]
  {
    hide After, Stored, ByteAt, CacheInv, Shaped, Eval, WellTyped, Width, EvalRead, Pow2, CreateZExt, CreateExtract,
      FromInt, ToNat, NeverConst, ObjectState.Valid, ObjectState.Allocated, ObjectState.ByteValue;
    // truncate the offset to 32 bits
    var offset := CreateZExt(pointer, INT32);
    if offset.Const? {
      WriteAt(os, ToNat(offset.bits), value, little);
      forall a: Assignment { ConstantOffset(offset, a); }
    } else {
      WriteSymbolic(os, offset, value, little);
    }
  }

  method WriteSymbolic(os: ObjectState, offset: Expr, value: Expr, little: bool)
    requires os.Valid() && WellTyped(offset) && Width(offset) == INT32 && NeverConst(offset)
    requires WellTyped(value) && AccessWidth(Width(value))
    modifies os.Repr
    ensures os.Valid() && os.Kept()
    ensures forall j: nat, a: Assignment ::
      j < os.mo.size && InBounds(offset, ByteCount(Width(value)), os.mo.size, a) ==>
      var s, o, n := Stored(Eval(value, a)), ToNat(Eval(offset, a)), ByteCount(Width(value));
      os.ByteValue(j, a) ==
        if j < o || j >= o + n then old(os.ByteValue(j, a))
        else if little then s[8 * (j - o)..8 * (j - o) + 8]
        else s[8 * (o + n - 1 - j)..8 * (o + n - 1 - j) + 8]
  {
    hide After, ByteAt, CacheInv, Shaped, Eval, WellTyped, CreateZExt, CreateExtract, EvalRead, Pow2, FromInt, ToNat,
      NeverConst, AddConst,
      ObjectState.Valid, ObjectState.Allocated, ObjectState.ByteValue;
    var w := Width(value);
    assert !offset.Const? by { NotConst(offset); }
    if w == BOOL {
      os.Write8Symbolic(offset, CreateZExt(value, INT8));
      forall a: Assignment ensures Eval(CreateZExt(value, INT8), a) == Stored(Eval(value, a)) {
        ZExtSound(value, INT8, a);
      }
    } else {
      WriteBytesSymbolic(os, offset, value, little);
      forall j: nat, a: Assignment | j < os.mo.size && InBounds(offset, Width(value) / 8, os.mo.size, a)
        ensures var s, o, n := Eval(value, a), ToNat(Eval(offset, a)), Width(value) / 8;
          os.ByteValue(j, a) ==
            if j < o || j >= o + n then old(os.ByteValue(j, a))
            else if little then s[8 * (j - o)..8 * (j - o) + 8]
            else s[8 * (o + n - 1 - j)..8 * (o + n - 1 - j) + 8]
      {
        AfterInOrder(Eval(value, a), ToNat(Eval(offset, a)), j, little, old(os.ByteValue(j, a)));
      }
    }
  }

  method WriteBytesSymbolic(os: ObjectState, offset: Expr, value: Expr, little: bool)
    requires os.Valid() && WellTyped(offset) && Width(offset) == INT32 && NeverConst(offset)
    requires WellTyped(value) && WholeBytes(Width(value))
    modifies os.Repr
    ensures os.Valid() && os.Kept()
    ensures forall j: nat, a: Assignment ::
      j < os.mo.size && InBounds(offset, Width(value) / 8, os.mo.size, a) ==>
      os.ByteValue(j, a) == After(Eval(value, a), ToNat(Eval(offset, a)), j, little, old(os.ByteValue(j, a)))
  {
    hide ByteAt, CacheInv, Shaped, Eval, WellTyped, Width, ToNat, NeverConst, Spliced;
    ghost var c := os.cache;
    assert Shaped(c) by { InvShaped(c); }
    var n := Width(value) / 8;
    var i := 0;
    SplicedNone(c, value, offset, little);
    while i != n
      invariant 0 <= i <= n && os.Valid() && os.Kept() && Shaped(os.cache)
      invariant Spliced(c, os.cache, value, i, offset, little)
    {
      ghost var d := os.cache;
      WriteByteOf(os, offset, Pos(i, n, little), value, i);
      SplicedMore(c, d, os.cache, value, i, offset, little);
      i := i + 1;
    }
    SplicedAll(c, os.cache, value, offset, little);
  }

  /** For every assignment with the access in bounds, `d` is `c` with the first `i` bytes of the value stored. */
  ghost predicate Spliced(c: Cache, d: Cache, value: Expr, i: nat, offset: Expr, little: bool)
    requires Shaped(c) && Shaped(d) && WellTyped(value) && WholeBytes(Width(value)) && WellTyped(offset)
  {
    |d.store| == |c.store| &&
    forall a: Assignment :: InBounds(offset, Width(value) / 8, |c.store|, a) ==>
      forall j: nat :: j < |c.store| ==>
        ByteAt(d, j, a) == Partly(Eval(value, a), i, ToNat(Eval(offset, a)), j, little, ByteAt(c, j, a))
  }

  /** `d` is `c` with byte `i` of the value stored at `offset + p`. */
  ghost predicate SplicedAt(c: Cache, d: Cache, value: Expr, i: nat, offset: Expr, p: nat)
    requires Shaped(c) && Shaped(d) && WellTyped(value) && 8 * i + 8 <= Width(value) && WellTyped(offset)
  {
    |d.store| == |c.store| &&
    forall a: Assignment :: InBounds(offset, p + 1, |c.store|, a) ==>
      forall j: nat :: j < |c.store| ==>
        ByteAt(d, j, a) == if j == ToNat(Eval(offset, a)) + p then ByteOf(Eval(value, a), i) else ByteAt(c, j, a)
  }

  lemma SplicedNone(c: Cache, value: Expr, offset: Expr, little: bool)
    requires Shaped(c) && WellTyped(value) && WholeBytes(Width(value)) && WellTyped(offset)
    ensures Spliced(c, c, value, 0, offset, little)
  {
    hide ByteAt, Shaped, Eval, WellTyped, Width, ToNat;
  }

  lemma SplicedMore(c: Cache, d: Cache, e: Cache, value: Expr, i: nat, offset: Expr, little: bool)
    requires Shaped(c) && Shaped(d) && Shaped(e) && WellTyped(value) && WholeBytes(Width(value)) && WellTyped(offset)
    requires i < Width(value) / 8 && Spliced(c, d, value, i, offset, little)
    requires SplicedAt(d, e, value, i, offset, Pos(i, Width(value) / 8, little))
    ensures Spliced(c, e, value, i + 1, offset, little)
  {
    hide ByteAt, Shaped, Eval, WellTyped, Width, ToNat, Partly, ByteOf, Pos;
    var n := Width(value) / 8;
    forall a: Assignment | InBounds(offset, n, |c.store|, a)
      ensures forall j: nat :: j < |c.store| ==>
        ByteAt(e, j, a) == Partly(Eval(value, a), i + 1, ToNat(Eval(offset, a)), j, little, ByteAt(c, j, a))
    {
      var v, o := Eval(value, a), ToNat(Eval(offset, a));
      assert InBounds(offset, Pos(i, n, little) + 1, |c.store|, a);
      forall j: nat | j < |c.store| ensures ByteAt(e, j, a) == Partly(v, i + 1, o, j, little, ByteAt(c, j, a)) {
        PartlyMore(v, i, o, j, little, ByteAt(c, j, a));
      }
    }
  }

  lemma SplicedAll(c: Cache, d: Cache, value: Expr, offset: Expr, little: bool)
    requires Shaped(c) && Shaped(d) && WellTyped(value) && WholeBytes(Width(value)) && WellTyped(offset)
    requires Spliced(c, d, value, Width(value) / 8, offset, little)
    ensures |d.store| == |c.store|
    ensures forall j: nat, a: Assignment :: j < |c.store| && InBounds(offset, Width(value) / 8, |c.store|, a) ==>
      ByteAt(d, j, a) == After(Eval(value, a), ToNat(Eval(offset, a)), j, little, ByteAt(c, j, a))
  {
    hide ByteAt, Shaped, Eval, WellTyped, Width, ToNat, Partly, After;
    forall j: nat, a: Assignment | j < |c.store| && InBounds(offset, Width(value) / 8, |c.store|, a)
      ensures ByteAt(d, j, a) == After(Eval(value, a), ToNat(Eval(offset, a)), j, little, ByteAt(c, j, a))
    {
      PartlyEnds(Eval(value, a), ToNat(Eval(offset, a)), j, little, ByteAt(c, j, a));
    }
  }

  /** write8 at `offset + p` of byte `i` of the value. */
  method WriteByteOf(os: ObjectState, offset: Expr, p: nat, value: Expr, i: nat)
    requires os.Valid() && WellTyped(offset) && Width(offset) == INT32 && NeverConst(offset)
    requires WellTyped(value) && 8 * i + 8 <= Width(value)
    modifies os.Repr
    ensures os.Valid() && os.Kept()
    ensures Shaped(old(os.cache)) && Shaped(os.cache) && SplicedAt(old(os.cache), os.cache, value, i, offset, p)
  {
    hide ByteAt, CacheInv, Shaped, Eval, WellTyped, Width, CreateExtract, EvalRead, Pow2, FromInt, ToNat, NeverConst,
      ByteOffset, SplicedAt;
    ghost var c := os.cache;
    InvShaped(c);
    ByteOffsetNeverConst(offset, p);
    os.Write8Symbolic(ByteOffset(offset, p), CreateExtract(value, 8 * i, INT8));
    InvShaped(os.cache);
    forall j: nat, a: Assignment | j < |c.store|
      ensures ByteAt(os.cache, j, a) ==
        if j == ToNat(Eval(ByteOffset(offset, p), a)) then Eval(CreateExtract(value, 8 * i, INT8), a) else ByteAt(c, j, a)
    {
      assert os.ByteValue(j, a) == ByteAt(os.cache, j, a);
    }
    assert WroteAt(c, os.cache, ByteOffset(offset, p), CreateExtract(value, 8 * i, INT8));
    ByteOffsetShifted(offset, p, c);
    WriteIsSplice(c, os.cache, value, i, ByteOffset(offset, p), offset, p);
  }

  /** `d` is `c` with the byte `b` stored at the index. */
  ghost predicate WroteAt(c: Cache, d: Cache, index: Expr, b: Expr) {
    Shaped(c) && Shaped(d) && |d.store| == |c.store| && WellTyped(index) && WellTyped(b) && Width(b) == INT8 &&
    forall j: nat, a: Assignment :: j < |c.store| ==>
      ByteAt(d, j, a) == if j == ToNat(Eval(index, a)) then Eval(b, a) else ByteAt(c, j, a)
  }

  lemma BelowRange(c: Cache, w: nat)
    requires Shaped(c) && w == INT32
    ensures |c.store| < Pow2(w)
  {
  }

  /** Inside an object of `size` bytes the index is `offset + p`. */
  ghost predicate Shifted(index: Expr, offset: Expr, p: nat, size: nat) {
    WellTyped(index) && WellTyped(offset) &&
    forall a: Assignment :: InBounds(offset, p + 1, size, a) ==> ToNat(Eval(index, a)) == ToNat(Eval(offset, a)) + p
  }

  lemma ByteOffsetShifted(offset: Expr, p: nat, c: Cache)
    requires WellTyped(offset) && Width(offset) == INT32 && Shaped(c)
    ensures Shifted(ByteOffset(offset, p), offset, p, |c.store|)
  {
    hide Shaped, Eval, WellTyped, Width, Pow2, FromInt, ToNat, ByteOffset;
    BelowRange(c, Width(offset));
    forall a: Assignment | InBounds(offset, p + 1, |c.store|, a)
      ensures ToNat(Eval(ByteOffset(offset, p), a)) == ToNat(Eval(offset, a)) + p
    {
      ByteOffsetValue(offset, p, |c.store|, a);
    }
  }

  /** A write at the byte offset is a write at `offset + p`. */
  lemma WriteIsSplice(c: Cache, d: Cache, value: Expr, i: nat, index: Expr, offset: Expr, p: nat)
    requires WellTyped(value) && 8 * i + 8 <= Width(value)
    requires WroteAt(c, d, index, CreateExtract(value, 8 * i, INT8)) && Shifted(index, offset, p, |c.store|)
    ensures SplicedAt(c, d, value, i, offset, p)
  {
    hide ByteAt, Shaped, Eval, WellTyped, Width, CreateExtract, ToNat, ByteOf;
    forall a: Assignment | InBounds(offset, p + 1, |c.store|, a)
      ensures forall j: nat :: j < |c.store| ==>
        ByteAt(d, j, a) == if j == ToNat(Eval(offset, a)) + p then ByteOf(Eval(value, a), i) else ByteAt(c, j, a)
    {
      ByteExtracted(value, i, a);
    }
  }

  lemma NotConst(e: Expr)
    requires NeverConst(e)
    ensures !e.Const?
  {
  }

  method Read(os: ObjectState, pointer: Expr, w: nat, little: bool) returns (e: Expr)
    requires os.Valid() && WellTyped(pointer) && AccessWidth(w)
    requires OffsetOk(CreateZExt(pointer, INT32), ByteCount(w), os.mo.size)
    modifies os.Repr
    ensures os.Valid() && os.Kept() && WellTyped(e) && Width(e) == w
    ensures forall j: nat, a: Assignment :: j < os.mo.size ==> os.ByteValue(j, a) == old(os.ByteValue(j, a))
    ensures w == BOOL ==> forall a: Assignment :: Target(pointer, a) < os.mo.size ==>
      Eval(e, a) == old(os.ByteValue(Target(pointer, a), a))[..1]
    ensures forall j: nat, a: Assignment |
      w != BOOL && j < os.mo.size && Target(pointer, a) + w / 8 <= os.mo.size &&
      Target(pointer, a) <= j < Target(pointer, a) + w / 8 ::
      var v, o, n := Eval(e, a), Target(pointer, a), w / 8;
      old(os.ByteValue(j, a)) == if little then v[8 * (j - o)..8 * (j - o) + 8] else v[8 * (o + n - 1 - j)..8 * (o + n - 1 - j) + 8]
  {
    hide ByteAt, CacheInv, Shaped, Eval, WellTyped, Width, EvalRead, Pow2, CreateZExt, CreateExtract, FromInt, ToNat,
      NeverConst, Pos, ByteOf, WholeBytes,
      ObjectState.Valid, ObjectState.Allocated, ObjectState.ByteValue;
    var offset := CreateZExt(pointer, INT32);
    if offset.Const? {
      e := ReadConstant(os, offset, w, little);
    } else {
      e := ReadSymbolic(os, offset, w, little);
    }
  }

  lemma ConstantOffset(offset: Expr, a: Assignment)
    requires WellTyped(offset) && offset.Const?
    ensures Eval(offset, a) == offset.bits
  {
  }

  method ReadConstant(os: ObjectState, offset: Expr, w: nat, little: bool) returns (e: Expr)
    requires os.Valid() && WellTyped(offset) && offset.Const? && AccessWidth(w) && OffsetOk(offset, ByteCount(w), os.mo.size)
    modifies os.Repr
    ensures os.Valid() && os.Kept() && WellTyped(e) && Width(e) == w
    ensures forall j: nat, a: Assignment :: j < os.mo.size ==> os.ByteValue(j, a) == old(os.ByteValue(j, a))
    ensures forall a: Assignment :: w == BOOL && InBounds(offset, 1, os.mo.size, a) ==>
      Eval(e, a) == old(os.ByteValue(ToNat(Eval(offset, a)), a))[..1]
    ensures forall j: nat, a: Assignment |
      w != BOOL && j < os.mo.size && InBounds(offset, w / 8, os.mo.size, a) &&
      ToNat(Eval(offset, a)) <= j < ToNat(Eval(offset, a)) + w / 8 ::
      var v, o, n := Eval(e, a), ToNat(Eval(offset, a)), w / 8;
      old(os.ByteValue(j, a)) == if little then v[8 * (j - o)..8 * (j - o) + 8] else v[8 * (o + n - 1 - j)..8 * (o + n - 1 - j) + 8]
  {
    hide ByteAt, CacheInv, Shaped, Eval, WellTyped, Width, Pow2, ToNat, Pos, ByteOf,
      ObjectState.Valid, ObjectState.Allocated, ObjectState.ByteValue;
    forall a: Assignment { ConstantOffset(offset, a); }
    e := ReadAt(os, ToNat(offset.bits), w, little);
  }

  method ReadSymbolic(os: ObjectState, offset: Expr, w: nat, little: bool) returns (e: Expr)
    requires os.Valid() && WellTyped(offset) && Width(offset) == INT32 && NeverConst(offset) && AccessWidth(w)
    modifies os.Repr
    ensures os.Valid() && os.Kept() && WellTyped(e) && Width(e) == w
    ensures forall j: nat, a: Assignment :: j < os.mo.size ==> os.ByteValue(j, a) == old(os.ByteValue(j, a))
    ensures forall a: Assignment :: w == BOOL && InBounds(offset, 1, os.mo.size, a) ==>
      Eval(e, a) == old(os.ByteValue(ToNat(Eval(offset, a)), a))[..1]
    ensures forall j: nat, a: Assignment |
      w != BOOL && j < os.mo.size && InBounds(offset, w / 8, os.mo.size, a) &&
      ToNat(Eval(offset, a)) <= j < ToNat(Eval(offset, a)) + w / 8 ::
      var v, o, n := Eval(e, a), ToNat(Eval(offset, a)), w / 8;
      old(os.ByteValue(j, a)) == if little then v[8 * (j - o)..8 * (j - o) + 8] else v[8 * (o + n - 1 - j)..8 * (o + n - 1 - j) + 8]
  {
    hide ByteOf, Pos, ByteAt, CacheInv, Shaped, Eval, WellTyped, CreateConcat, CreateExtract, EvalRead, Pow2, FromInt, ToNat,
      NeverConst, AddConst,
      ObjectState.Valid, ObjectState.Allocated, ObjectState.ByteValue;
    assert !offset.Const? by { NotConst(offset); }
    if w == BOOL {
      var b := os.Read8Symbolic(offset);
      e := CreateExtract(b, 0, BOOL);
      forall a: Assignment ensures Eval(e, a) == Eval(b, a)[..1] {
        ExtractSound(b, 0, BOOL, a);
      }
    } else {
      e := ReadBytesSymbolic(os, offset, w, little);
      forall j: nat, a: Assignment | w != BOOL && j < os.mo.size && InBounds(offset, w / 8, os.mo.size, a) &&
          ToNat(Eval(offset, a)) <= j < ToNat(Eval(offset, a)) + w / 8
        ensures var v, o, n := Eval(e, a), ToNat(Eval(offset, a)), w / 8;
          old(os.ByteValue(j, a)) == if little then v[8 * (j - o)..8 * (j - o) + 8] else v[8 * (o + n - 1 - j)..8 * (o + n - 1 - j) + 8]
      {
        ghost var k := PosInOrder(Eval(e, a), ToNat(Eval(offset, a)), j, little);
        assert ByteOf(Eval(e, a), k) == old(os.ByteValue(ToNat(Eval(offset, a)) + Pos(k, w / 8, little), a));
      }
    }
  }

  method ReadBytesSymbolic(os: ObjectState, offset: Expr, w: nat, little: bool) returns (e: Expr)
    requires os.Valid() && WellTyped(offset) && Width(offset) == INT32 && NeverConst(offset) && WholeBytes(w)
    modifies os.Repr
    ensures os.Valid() && os.Kept() && WellTyped(e) && Width(e) == w
    ensures forall j: nat, a: Assignment :: j < os.mo.size ==> os.ByteValue(j, a) == old(os.ByteValue(j, a))
    ensures forall a: Assignment, k: nat :: k < w / 8 && InBounds(offset, w / 8, os.mo.size, a) ==>
      ByteOf(Eval(e, a), k) == old(os.ByteValue(ToNat(Eval(offset, a)) + Pos(k, w / 8, little), a))
  {
    hide ByteAt, CacheInv, Shaped, Eval, WellTyped, Width, CreateConcat, EvalRead, Pow2, FromInt, ToNat, NeverConst;
    var n, size := w / 8, os.mo.size;
    ghost var c := os.cache;
    InvShaped(c);
    var i := 0;
    e := TRUE;
    while i != n
      invariant 0 <= i <= n && os.Valid() && os.Kept()
      invariant i > 0 ==> WellTyped(e) && Width(e) == 8 * i && ReadsBytes(e, i, n, offset, little, c)
      invariant Shaped(os.cache) && SameBytes(c, os.cache)
    {
      var b := ReadByteAt(os, offset, Pos(i, n, little), c);
      PrependReadsBytes(b, e, i, n, offset, little, c);
      e := if i > 0 then CreateConcat(b, e) else b;
      i := i + 1;
    }
    forall j: nat, a: Assignment | j < size ensures os.ByteValue(j, a) == old(os.ByteValue(j, a)) {
      assert ByteAt(c, j, a) == ByteAt(os.cache, j, a);
    }
  }

  /** The first `i` of `n` bytes of `v` are those of the object at `o`. */
  ghost predicate Matches(v: Bits, i: nat, n: nat, o: nat, little: bool, c: Cache, a: Assignment)
    requires |v| == 8 * i && i <= n && Shaped(c) && o + n <= |c.store|
  {
    forall k: nat :: k < i ==> ByteOf(v, k) == ByteAt(c, o + Pos(k, n, little), a)
  }

  ghost predicate ReadsBytes(e: Expr, i: nat, n: nat, offset: Expr, little: bool, c: Cache)
    requires WellTyped(e) && Width(e) == 8 * i && i <= n && WellTyped(offset) && Shaped(c)
  {
    forall a: Assignment :: InBounds(offset, n, |c.store|, a) ==> Matches(Eval(e, a), i, n, ToNat(Eval(offset, a)), little, c, a)
  }

  lemma MatchesMore(v: Bits, b: Bits, i: nat, n: nat, o: nat, little: bool, c: Cache, a: Assignment)
    requires |v| == 8 * i && |b| == 8 && i < n && Shaped(c) && o + n <= |c.store|
    requires i > 0 ==> Matches(v, i, n, o, little, c, a)
    requires b == ByteAt(c, o + Pos(i, n, little), a)
    ensures Matches(v + b, i + 1, n, o, little, c, a)
  {
    hide ByteAt, Shaped;
    forall k: nat | k < i + 1 ensures ByteOf(v + b, k) == ByteAt(c, o + Pos(k, n, little), a) {
      if k < i {
        assert ByteOf(v + b, k) == ByteOf(v, k);
      }
    }
  }

  /** A byte read at `offset + p`. */
  ghost predicate ReadsByte(b: Expr, p: nat, offset: Expr, c: Cache)
    requires WellTyped(b) && Width(b) == INT8 && WellTyped(offset) && Shaped(c)
  {
    forall a: Assignment :: InBounds(offset, p + 1, |c.store|, a) ==> Eval(b, a) == ByteAt(c, ToNat(Eval(offset, a)) + p, a)
  }

  lemma PrependReadsBytes(b: Expr, e: Expr, i: nat, n: nat, offset: Expr, little: bool, c: Cache)
    requires WellTyped(b) && Width(b) == INT8 && i < n && WellTyped(offset) && Shaped(c)
    requires i > 0 ==> WellTyped(e) && Width(e) == 8 * i && ReadsBytes(e, i, n, offset, little, c)
    requires ReadsByte(b, Pos(i, n, little), offset, c)
    ensures var d := if i > 0 then CreateConcat(b, e) else b;
      WellTyped(d) && Width(d) == 8 * (i + 1) && ReadsBytes(d, i + 1, n, offset, little, c)
  {
    hide ByteAt, Shaped, Eval, WellTyped, Width, CreateConcat, ToNat, Matches, Pos;
    var d := if i > 0 then CreateConcat(b, e) else b;
    forall a: Assignment | InBounds(offset, n, |c.store|, a)
      ensures Matches(Eval(d, a), i + 1, n, ToNat(Eval(offset, a)), little, c, a)
    {
      if i > 0 {
        ConcatSound(b, e, a);
        MatchesMore(Eval(e, a), Eval(b, a), i, n, ToNat(Eval(offset, a)), little, c, a);
      } else {
        MatchesMore([], Eval(b, a), i, n, ToNat(Eval(offset, a)), little, c, a);
        assert [] + Eval(b, a) == Eval(b, a);
      }
    }
  }

  /** `e` is the byte that the index addresses, wherever it lies in the object. */
  ghost predicate ReadsIndex(e: Expr, index: Expr, c: Cache) {
    Shaped(c) && WellTyped(e) && Width(e) == INT8 && WellTyped(index) &&
    forall a: Assignment :: ToNat(Eval(index, a)) < |c.store| ==> Eval(e, a) == ByteAt(c, ToNat(Eval(index, a)), a)
  }

  /** What the byte offset reads is the byte at `offset + p`. */
  lemma ReadIsByte(e: Expr, index: Expr, offset: Expr, p: nat, c: Cache)
    requires ReadsIndex(e, index, c) && Shifted(index, offset, p, |c.store|)
    ensures ReadsByte(e, p, offset, c)
  {
    hide ByteAt, Shaped, Eval, WellTyped, Width, ToNat;
  }

  lemma ReadsSameByte(e: Expr, offset: Expr, p: nat, c: Cache, d: Cache)
    requires WellTyped(e) && Width(e) == INT8 && WellTyped(offset) && Shaped(c) && Shaped(d) && SameBytes(c, d)
    requires ReadsByte(e, p, offset, d)
    ensures ReadsByte(e, p, offset, c)
  {
    hide ByteAt, Shaped, Eval, WellTyped, Width, Pow2, FromInt, ToNat;
    forall a: Assignment | InBounds(offset, p + 1, |c.store|, a)
      ensures Eval(e, a) == ByteAt(c, ToNat(Eval(offset, a)) + p, a)
    {
      assert ByteAt(c, ToNat(Eval(offset, a)) + p, a) == ByteAt(d, ToNat(Eval(offset, a)) + p, a);
    }
  }

  /** read8 at `offset + p` of an object with the bytes of `c`. */
  method ReadByteAt(os: ObjectState, offset: Expr, p: nat, ghost c: Cache) returns (e: Expr)
    requires os.Valid() && WellTyped(offset) && Width(offset) == INT32 && NeverConst(offset)
    requires Shaped(c) && Shaped(os.cache) && SameBytes(c, os.cache)
    modifies os.Repr
    ensures os.Valid() && os.Kept() && WellTyped(e) && Width(e) == INT8
    ensures Shaped(os.cache) && SameBytes(c, os.cache) && ReadsByte(e, p, offset, c)
  {
    hide ByteAt, CacheInv, Shaped, Eval, WellTyped, Width, EvalRead, Pow2, FromInt, ToNat, NeverConst, ByteOffset, ReadsByte;
    ByteOffsetNeverConst(offset, p);
    ghost var d := os.cache;
    e := os.Read8Symbolic(ByteOffset(offset, p));
    InvShaped(os.cache);
    ByteOffsetShifted(offset, p, d);
    ReadIsByte(e, ByteOffset(offset, p), offset, p, d);
    ReadsSameByte(e, offset, p, c, d);
    assert SameBytes(d, os.cache) by {
      forall j: nat, a: Assignment | j < |d.store| ensures ByteAt(d, j, a) == ByteAt(os.cache, j, a) {
        assert os.ByteValue(j, a) == ByteAt(d, j, a);
      }
    }
    SameBytesTrans(c, d, os.cache);
  }

  // ----- round trip

  lemma StoredBool(v: Bits)
    requires |v| == BOOL
    ensures Stored(v)[0..8][..1] == v
  {
  }

  lemma StoredBytes(v: Bits)
    requires WholeBytes(|v|)
    ensures Stored(v) == v
  {
  }

  /** Reading back what was written gives the value written, and no byte outside changes. */
  method WriteThenRead(os: ObjectState, pointer: Expr, value: Expr, little: bool) returns (e: Expr)
    requires os.Valid() && WellTyped(pointer) && WellTyped(value) && AccessWidth(Width(value))
    requires OffsetOk(CreateZExt(pointer, INT32), ByteCount(Width(value)), os.mo.size)
    modifies os.Repr
    ensures os.Valid() && WellTyped(e) && Width(e) == Width(value)
    ensures forall a: Assignment :: Target(pointer, a) + ByteCount(Width(value)) <= os.mo.size ==> Eval(e, a) == Eval(value, a)
    ensures forall j: nat, a: Assignment ::
      j < os.mo.size && Target(pointer, a) + ByteCount(Width(value)) <= os.mo.size &&
      !(Target(pointer, a) <= j < Target(pointer, a) + ByteCount(Width(value))) ==>
      os.ByteValue(j, a) == old(os.ByteValue(j, a))
  {
    hide ByteOf, Pos, ByteAt, CacheInv, Shaped, Eval, WellTyped, EvalRead, Pow2, CreateZExt, FromInt, ToNat, NeverConst, After, Stored, Target,
      ObjectState.Valid, ObjectState.Allocated, ObjectState.ByteValue;
    Write(os, pointer, value, little);
    label written:
    e := Read(os, pointer, Width(value), little);
    ghost var w, n := Width(value), ByteCount(Width(value));
    forall a: Assignment | Target(pointer, a) + n <= os.mo.size ensures Eval(e, a) == Eval(value, a) {
      ghost var o, v := Target(pointer, a), Eval(value, a);
      if w == BOOL {
        StoredBool(v);
      } else {
        StoredBytes(v);
        forall k: nat | 8 * k + 8 <= w ensures ByteOf(Eval(e, a), k) == ByteOf(v, k) {
          InOrderAtPos(v, o, k, little);
          InOrderAtPos(Eval(e, a), o, k, little);
          assert ByteOf(v, k) == old@written(os.ByteValue(o + Pos(k, n, little), a));
        }
        BytesDetermine(Eval(e, a), v);
      }
    }
  }
}
