/** The three places in which KLEE keeps a byte of a memory object, as one value: the concrete store,
    the known symbolic expression, and the update list. What a byte is, what must hold between the
    places, and that every elementary change of the cache keeps both. */
module ObjectCache {
  import opened Wrappers
  import opened Words
  import opened Expressions
  import opened ExprBuilder

  /** `flushed[i]`: the update list is up to date at `i`. A missing root is the all-zero array that
      has not been created yet. */
  datatype Cache = Cache(store: seq<Byte>, concrete: seq<bool>, flushed: seq<bool>, known: seq<Option<Expr>>,
                         root: Option<Array>, head: UpdateNode)

  predicate InRange(u: UpdateNode, size: nat) {
    match u
    case NoUpdate => true
    case Update(next, i, _) => (i.Const? ==> ToNat(i.bits) < size) && InRange(next, size)
  }

  predicate ListOk(u: UpdateNode, size: nat) {
    UpdatesTyped(u) && IndexWidth(u, INT32) && InRange(u, size)
  }

  predicate RootOk(root: Option<Array>) {
    root.Some? && root.value.IsConstantArray() ==> |root.value.constantValues| == root.value.size
  }

  predicate Shaped(c: Cache) {
    && |c.concrete| == |c.flushed| == |c.known| == |c.store| < Pow2(INT32)
    && ListOk(c.head, |c.store|)
    && RootOk(c.root)
    && forall i :: 0 <= i < |c.known| && c.known[i].Some? ==>
         var e := c.known[i].value; WellTyped(e) && Width(e) == INT8
  }

  function RootByte(root: Option<Array>, i: nat, a: Assignment): Byte {
    if root.None? then ZERO_BYTE else InitialByte(root.value, i, a)
  }

  /** The byte as the update list alone has it. */
  function ListByte(c: Cache, i: nat, a: Assignment): Byte
    requires Shaped(c)
  {
    EvalRead(c.head, i, RootByte(c.root, i, a), a)
  }

  /** The byte at `i` under the assignment `a`. */
  function ByteAt(c: Cache, i: nat, a: Assignment): Byte
    requires Shaped(c) && i < |c.store|
  {
    if c.concrete[i] then c.store[i]
    else if c.known[i].Some? then Eval(c.known[i].value, a)
    else ListByte(c, i, a)
  }

  /** The cache invariants stated in the source, and the agreement that flushing relies on. */
  ghost predicate CacheInv(c: Cache) {
    && Shaped(c)
    && (forall i :: 0 <= i < |c.store| && c.known[i].Some? ==> !c.concrete[i])
    && (forall i :: 0 <= i < |c.store| && !c.flushed[i] ==> c.concrete[i] || c.known[i].Some?)
    && (forall i: nat, a: Assignment {:trigger ByteAt(c, i, a)} :: i < |c.store| && c.flushed[i] ==>
      ListByte(c, i, a) == ByteAt(c, i, a))
  }

  lemma InvShaped(c: Cache)
    requires CacheInv(c)
    ensures Shaped(c)
    ensures forall i :: 0 <= i < |c.store| && !c.flushed[i] ==> c.concrete[i] || c.known[i].Some?
  {
  }

  lemma InvExclusive(c: Cache)
    requires CacheInv(c)
    ensures |c.concrete| == |c.known| == |c.store|
    ensures forall i :: 0 <= i < |c.store| && c.known[i].Some? ==> !c.concrete[i]
  {
  }

  ghost predicate SameBytes(c: Cache, d: Cache)
    requires Shaped(c) && Shaped(d)
  {
    |c.store| == |d.store| && forall i: nat, a: Assignment :: i < |c.store| ==> ByteAt(c, i, a) == ByteAt(d, i, a)
  }

  lemma SameBytesTrans(c: Cache, d: Cache, e: Cache)
    requires Shaped(c) && Shaped(d) && Shaped(e) && SameBytes(c, d) && SameBytes(d, e)
    ensures SameBytes(c, e)
  {
    hide ByteAt, Pow2;
    forall i: nat, a: Assignment | i < |c.store| ensures ByteAt(c, i, a) == ByteAt(e, i, a) {
      assert ByteAt(c, i, a) == ByteAt(d, i, a);
    }
  }

  // ----- the two ways an object starts

  /** All concrete, nothing flushed, no list. */
  lemma FreshConcrete(c: Cache)
    requires |c.concrete| == |c.flushed| == |c.known| == |c.store| < Pow2(INT32)
    requires c.root.None? && c.head == NoUpdate
    requires forall i :: 0 <= i < |c.store| ==> c.concrete[i] && !c.flushed[i] && c.known[i].None?
    ensures CacheInv(c)
    ensures forall i: nat, a: Assignment :: i < |c.store| ==> ByteAt(c, i, a) == c.store[i]
  {
    hide Pow2;
  }

  /** All concrete again, over whatever list there was. */
  lemma AllConcrete(c: Cache)
    requires Shaped(c)
    requires forall i :: 0 <= i < |c.store| ==> c.concrete[i] && !c.flushed[i] && c.known[i].None?
    ensures CacheInv(c)
    ensures forall i: nat, a: Assignment :: i < |c.store| ==> ByteAt(c, i, a) == c.store[i]
  {
    hide Pow2;
  }

  /** All flushed to an array without updates. */
  lemma FreshSymbolic(c: Cache)
    requires |c.store| < Pow2(INT32) && c.root.Some? && RootOk(c.root) && c.head == NoUpdate
    requires |c.flushed| == |c.store| && AllFlushed(c)
    ensures CacheInv(c)
    ensures forall i: nat, a: Assignment :: i < |c.store| ==> ByteAt(c, i, a) == InitialByte(c.root.value, i, a)
  {
    hide Pow2;
  }

  // ----- flushing

  /** The expression a cached byte is flushed as. */
  function CachedExpr(c: Cache, k: nat): (e: Expr)
    requires Shaped(c) && k < |c.store| && (c.concrete[k] || c.known[k].Some?)
    ensures WellTyped(e) && Width(e) == INT8
  {
    if c.concrete[k] then Const(c.store[k]) else c.known[k].value
  }

  function FlushForRead(c: Cache, k: nat): Cache
    requires Shaped(c) && k < |c.store| && (!c.flushed[k] ==> c.concrete[k] || c.known[k].Some?)
  {
    if c.flushed[k] then c
    else c.(head := Update(c.head, ConstOf(k, INT32), CachedExpr(c, k)), flushed := c.flushed[k := true])
  }

  function FlushForWrite(c: Cache, k: nat): Cache
    requires Shaped(c) && k < |c.store| && (!c.flushed[k] ==> c.concrete[k] || c.known[k].Some?)
  {
    FlushForRead(c, k).(concrete := c.concrete[k := false], known := c.known[k := None])
  }

  /** A constant write below 2^32 is seen at its own index only. */
  lemma ConstWrite(u: UpdateNode, k: nat, v: Expr, i: nat, init: Byte, a: Assignment)
    requires UpdatesTyped(u) && WellTyped(v) && Width(v) == INT8 && k < Pow2(INT32)
    ensures UpdatesTyped(Update(u, ConstOf(k, INT32), v))
    ensures EvalRead(Update(u, ConstOf(k, INT32), v), i, init, a) == if i == k then Eval(v, a) else EvalRead(u, i, init, a)
  {
    EvalConst(ConstOf(k, INT32).bits, a);
  }

  lemma FlushForReadAt(c: Cache, k: nat, i: nat, a: Assignment)
    requires CacheInv(c) && k < |c.store| && i < |c.store|
    ensures var d := FlushForRead(c, k);
      Shaped(d) && ByteAt(d, i, a) == ByteAt(c, i, a) && (d.flushed[i] ==> ListByte(d, i, a) == ByteAt(d, i, a))
  {
    hide EvalRead, Eval, Pow2, FromInt, ToNat;
    var d := FlushForRead(c, k);
    if !c.flushed[k] {
      assert Shaped(d);
      ConstWrite(c.head, k, CachedExpr(c, k), i, RootByte(c.root, i, a), a);
      if c.concrete[k] {
        EvalConst(c.store[k], a);
      }
    }
  }

  lemma FlushForReadKeeps(c: Cache, k: nat)
    requires CacheInv(c) && k < |c.store|
    ensures CacheInv(FlushForRead(c, k)) && SameBytes(c, FlushForRead(c, k))
  {
    hide ByteAt, ListByte, Pow2, FromInt, ToNat;
    forall i: nat, a: Assignment | i < |c.store|
      ensures var d := FlushForRead(c, k);
        Shaped(d) && ByteAt(d, i, a) == ByteAt(c, i, a) && (d.flushed[i] ==> ListByte(d, i, a) == ByteAt(d, i, a))
    {
      FlushForReadAt(c, k, i, a);
    }
    assert k < |c.store| && Shaped(FlushForRead(c, k)) by { FlushForReadAt(c, k, k, map[]); }
  }

  lemma FlushForWriteAt(c: Cache, k: nat, i: nat, a: Assignment)
    requires CacheInv(c) && k < |c.store| && i < |c.store|
    ensures var d := FlushForWrite(c, k);
      Shaped(d) && ByteAt(d, i, a) == ByteAt(c, i, a) && (d.flushed[i] ==> ListByte(d, i, a) == ByteAt(d, i, a))
  {
    hide EvalRead, Eval, Pow2, FromInt, ToNat;
    FlushForReadAt(c, k, i, a);
    var m, d := FlushForRead(c, k), FlushForWrite(c, k);
    assert Shaped(d);
    assert ListByte(d, i, a) == ListByte(m, i, a);
  }

  lemma FlushForWriteKeeps(c: Cache, k: nat)
    requires CacheInv(c) && k < |c.store|
    ensures CacheInv(FlushForWrite(c, k)) && SameBytes(c, FlushForWrite(c, k))
  {
    hide ByteAt, ListByte, Pow2, FromInt, ToNat;
    forall i: nat, a: Assignment | i < |c.store|
      ensures var d := FlushForWrite(c, k);
        Shaped(d) && ByteAt(d, i, a) == ByteAt(c, i, a) && (d.flushed[i] ==> ListByte(d, i, a) == ByteAt(d, i, a))
    {
      FlushForWriteAt(c, k, i, a);
    }
    assert k < |c.store| && Shaped(FlushForWrite(c, k)) by { FlushForWriteAt(c, k, k, map[]); }
  }

  // ----- writing

  function WriteConcrete(c: Cache, k: nat, v: Byte): Cache
    requires Shaped(c) && k < |c.store|
  {
    c.(store := c.store[k := v], concrete := c.concrete[k := true], flushed := c.flushed[k := false],
       known := c.known[k := None])
  }

  function WriteKnown(c: Cache, k: nat, e: Expr): Cache
    requires Shaped(c) && k < |c.store|
  {
    c.(concrete := c.concrete[k := false], flushed := c.flushed[k := false], known := c.known[k := Some(e)])
  }

  /** Every byte of `d` is that of `c`, except that `k` holds the value of `e`. */
  ghost predicate WrittenAt(c: Cache, d: Cache, k: nat, e: Expr)
    requires Shaped(c) && Shaped(d) && WellTyped(e)
  {
    |d.store| == |c.store| &&
    forall i: nat, a: Assignment :: i < |c.store| ==> ByteAt(d, i, a) == if i == k then Eval(e, a) else ByteAt(c, i, a)
  }

  lemma WriteConcreteOk(c: Cache, k: nat, v: Byte)
    requires CacheInv(c) && k < |c.store|
    ensures CacheInv(WriteConcrete(c, k, v)) && WrittenAt(c, WriteConcrete(c, k, v), k, Const(v))
  {
    var d := WriteConcrete(c, k, v);
    assert Shaped(d);
    forall i: nat, a: Assignment | i < |c.store|
      ensures ByteAt(d, i, a) == (if i == k then Eval(Const(v), a) else ByteAt(c, i, a))
      ensures d.flushed[i] ==> ListByte(d, i, a) == ByteAt(d, i, a)
    {
      hide EvalRead;
      EvalConst(v, a);
      assert ListByte(d, i, a) == ListByte(c, i, a);
    }
  }

  lemma WriteKnownOk(c: Cache, k: nat, e: Expr)
    requires CacheInv(c) && k < |c.store| && WellTyped(e) && Width(e) == INT8
    ensures CacheInv(WriteKnown(c, k, e)) && WrittenAt(c, WriteKnown(c, k, e), k, e)
  {
    var d := WriteKnown(c, k, e);
    assert Shaped(d);
    forall i: nat, a: Assignment | i < |c.store|
      ensures ByteAt(d, i, a) == (if i == k then Eval(e, a) else ByteAt(c, i, a))
      ensures d.flushed[i] ==> ListByte(d, i, a) == ByteAt(d, i, a)
    {
      hide EvalRead, Eval;
      assert ListByte(d, i, a) == ListByte(c, i, a);
    }
  }

  predicate AllFlushed(c: Cache) {
    |c.flushed| == |c.concrete| == |c.known| &&
    forall i :: 0 <= i < |c.flushed| ==> c.flushed[i] && !c.concrete[i] && c.known[i].None?
  }

  /** Extending the list of a fully flushed object at a symbolic index. */
  lemma ExtendOk(c: Cache, index: Expr, v: Expr)
    requires CacheInv(c) && AllFlushed(c)
    requires WellTyped(index) && !index.Const? && Width(index) == INT32 && WellTyped(v) && Width(v) == INT8
    ensures var d := c.(head := Update(c.head, index, v));
      && CacheInv(d)
      && forall i: nat, a: Assignment :: i < |c.store| ==>
           ByteAt(d, i, a) == if i == ToNat(Eval(index, a)) then Eval(v, a) else ByteAt(c, i, a)
  {
    var d := c.(head := Update(c.head, index, v));
    assert Shaped(d);
    forall i: nat, a: Assignment | i < |c.store|
      ensures ByteAt(d, i, a) == (if i == ToNat(Eval(index, a)) then Eval(v, a) else ByteAt(c, i, a))
      ensures ListByte(d, i, a) == ByteAt(d, i, a)
    {
      assert ListByte(d, i, a) == if ToNat(Eval(index, a)) == i then Eval(v, a) else ListByte(c, i, a);
      hide EvalRead, Eval;
    }
  }

  // ----- the lazily created constant array

  datatype Write = Write(index: Expr, value: Expr)

  /** The list as a sequence of writes, oldest first. */
  function Writes(u: UpdateNode): seq<Write> {
    match u
    case NoUpdate => []
    case Update(next, i, v) => Writes(next) + [Write(i, v)]
  }

  /** UpdateNode::getSize */
  function Size(u: UpdateNode): (n: nat)
    ensures n == |Writes(u)|
  {
    match u
    case NoUpdate => 0
    case Update(next, _, _) => 1 + Size(next)
  }

  function Extended(u: UpdateNode, ws: seq<Write>): UpdateNode {
    if ws == [] then u
    else Update(Extended(u, ws[..|ws| - 1]), ws[|ws| - 1].index, ws[|ws| - 1].value)
  }

  predicate WritesOk(ws: seq<Write>, size: nat) {
    forall k :: 0 <= k < |ws| ==>
      var w := ws[k];
      WellTyped(w.index) && Width(w.index) == INT32 && (w.index.Const? ==> ToNat(w.index.bits) < size) &&
      WellTyped(w.value) && Width(w.value) == INT8
  }

  lemma {:induction false} WritesOfList(u: UpdateNode, size: nat)
    requires ListOk(u, size)
    ensures WritesOk(Writes(u), size) && Extended(NoUpdate, Writes(u)) == u
    decreases u
  {
    if u.Update? {
      WritesOfList(u.next, size);
      assert Writes(u)[..|Writes(u)| - 1] == Writes(u.next);
    }
  }

  lemma {:induction false} ExtendedOk(ws: seq<Write>, size: nat)
    requires WritesOk(ws, size)
    ensures ListOk(Extended(NoUpdate, ws), size)
    decreases |ws|
  {
    if ws != [] {
      ExtendedOk(ws[..|ws| - 1], size);
    }
  }

  /** The value after a list of writes over `init`. */
  function Replay(ws: seq<Write>, size: nat, i: nat, init: Byte, a: Assignment): Byte
    requires WritesOk(ws, size)
  {
    ExtendedOk(ws, size);
    EvalRead(Extended(NoUpdate, ws), i, init, a)
  }

  /** Replaying a split list is replaying its second part over the first. */
  lemma {:induction false} ReplaySplit(ws: seq<Write>, k: nat, size: nat, i: nat, init: Byte, a: Assignment)
    requires WritesOk(ws, size) && k <= |ws|
    ensures Replay(ws, size, i, init, a) == Replay(ws[k..], size, i, Replay(ws[..k], size, i, init, a), a)
    decreases |ws|
  {
    hide Eval, ToNat;
    if k == |ws| {
      assert ws[..k] == ws;
    } else {
      var n := |ws| - 1;
      ReplaySplit(ws[..n], k, size, i, init, a);
      assert ws[..n][..k] == ws[..k] && ws[..n][k..] == ws[k..][..n - k];
      ReplayLast(ws, size, i, init, a);
      ReplayLast(ws[k..], size, i, Replay(ws[..k], size, i, init, a), a);
    }
  }

  lemma ReplayLast(ws: seq<Write>, size: nat, i: nat, init: Byte, a: Assignment)
    requires WritesOk(ws, size) && ws != []
    ensures var n := |ws| - 1;
      Replay(ws, size, i, init, a) ==
      if ToNat(Eval(ws[n].index, a)) == i then Eval(ws[n].value, a) else Replay(ws[..n], size, i, init, a)
  {
    ExtendedOk(ws, size);
  }

  /** Moving the oldest constant writes into a constant array changes no byte of the list. */
  lemma RebuildOk(c: Cache, begin: nat, contents: seq<Byte>, name: string)
    requires CacheInv(c) && c.root.None? && |contents| == |c.store|
    requires begin <= |Writes(c.head)| && WritesOk(Writes(c.head), |c.store|)
    requires forall i: nat, a: Assignment :: i < |contents| ==>
      Replay(Writes(c.head)[..begin], |c.store|, i, ZERO_BYTE, a) == contents[i]
    ensures var d := c.(root := Some(Array(name, |contents|, contents)), head := Extended(NoUpdate, Writes(c.head)[begin..]));
      CacheInv(d) && SameBytes(c, d)
  {
    var ws, n := Writes(c.head), |c.store|;
    var d := c.(root := Some(Array(name, |contents|, contents)), head := Extended(NoUpdate, ws[begin..]));
    ExtendedOk(ws[begin..], n);
    assert Shaped(d);
    WritesOfList(c.head, n);
    forall i: nat, a: Assignment | i < n
      ensures ListByte(d, i, a) == ListByte(c, i, a) && ByteAt(c, i, a) == ByteAt(d, i, a)
    {
      hide EvalRead, Eval;
      ReplaySplit(ws, begin, n, i, ZERO_BYTE, a);
    }
    forall i: nat, a: Assignment | i < n && d.flushed[i] ensures ListByte(d, i, a) == ByteAt(d, i, a) {
      hide EvalRead, Eval;
      assert ListByte(c, i, a) == ByteAt(c, i, a);
    }
  }

  /** One more constant write replayed into the contents. */
  lemma ReplayConst(ws: seq<Write>, size: nat, i: nat, a: Assignment)
    requires WritesOk(ws, size) && ws != [] && ws[|ws| - 1].index.Const? && ws[|ws| - 1].value.Const?
    ensures var w := ws[|ws| - 1];
      Replay(ws, size, i, ZERO_BYTE, a) ==
      if ToNat(w.index.bits) == i then w.value.bits else Replay(ws[..|ws| - 1], size, i, ZERO_BYTE, a)
  {
    ReplayLast(ws, size, i, ZERO_BYTE, a);
    EvalConst(ws[|ws| - 1].index.bits, a);
    EvalConst(ws[|ws| - 1].value.bits, a);
  }

  lemma ReplayNone(ws: seq<Write>, size: nat, i: nat, a: Assignment)
    requires ws == []
    ensures Replay(ws, size, i, ZERO_BYTE, a) == ZERO_BYTE
  {
  }

  lemma InvWrites(c: Cache)
    requires CacheInv(c)
    ensures WritesOk(Writes(c.head), |c.store|)
  {
    WritesOfList(c.head, |c.store|);
  }

  // ----- reading

  lemma InvList(c: Cache)
    requires CacheInv(c)
    ensures Shaped(c) && RootOk(c.root) && UpdatesTyped(c.head) && IndexWidth(c.head, INT32)
  {
  }

  /** ReadExpr::create over the list and its root. */
  function ReadAt(c: Cache, index: Expr): (e: Expr)
    requires Shaped(c) && c.root.Some? && WellTyped(index) && Width(index) == INT32
    ensures WellTyped(e) && Width(e) == INT8
  {
    CreateRead(c.root.value, c.head, index)
  }

  lemma CachedByteValue(c: Cache, k: nat, e: Expr)
    requires CacheInv(c) && k < |c.store|
    requires if c.concrete[k] then e == Const(c.store[k]) else c.known[k] == Some(e)
    ensures WellTyped(e) && Width(e) == INT8
    ensures forall a: Assignment :: Eval(e, a) == ByteAt(c, k, a)
  {
    hide Pow2, EvalRead;
  }

  /** A byte without a cached value is what the list has. */
  lemma ReadAtConst(c: Cache, k: nat)
    requires CacheInv(c) && c.root.Some? && k < |c.store| && !c.concrete[k] && c.known[k].None?
    ensures forall a: Assignment :: Eval(ReadAt(c, ConstOf(k, INT32)), a) == ByteAt(c, k, a)
  {
    hide Pow2, EvalRead, FromInt, ToNat, CreateRead, Eval;
    forall a: Assignment ensures Eval(ReadAt(c, ConstOf(k, INT32)), a) == ByteAt(c, k, a) {
      EvalConst(ConstOf(k, INT32).bits, a);
      ReadSound(c.root.value, c.head, ConstOf(k, INT32), a);
    }
  }

  /** Once everything is flushed, the list has every byte. */
  lemma ReadAtSymbolic(c: Cache, index: Expr)
    requires CacheInv(c) && c.root.Some? && WellTyped(index) && Width(index) == INT32
    requires forall i :: 0 <= i < |c.store| ==> c.flushed[i]
    ensures forall a: Assignment :: ToNat(Eval(index, a)) < |c.store| ==>
      Eval(ReadAt(c, index), a) == ByteAt(c, ToNat(Eval(index, a)), a)
  {
    hide Pow2, EvalRead, FromInt, ToNat, CreateRead, Eval;
    forall a: Assignment | ToNat(Eval(index, a)) < |c.store|
      ensures Eval(ReadAt(c, index), a) == ByteAt(c, ToNat(Eval(index, a)), a)
    {
      ReadSound(c.root.value, c.head, index, a);
      assert ListByte(c, ToNat(Eval(index, a)), a) == ByteAt(c, ToNat(Eval(index, a)), a);
    }
  }
}
