/** Any number of address spaces that share object states behave as if each had its own memory. */
module CopyOnWrite {
  import opened Wrappers
  import opened Words
  import opened Expressions
  import opened ObjectCache
  import opened Memory
  import opened AddressSpaces

  /** The bytes of an object under an assignment. */
  ghost function Contents(c: Cache, a: Assignment): (m: seq<Byte>)
    ensures Shaped(c) ==> |m| == |c.store| && forall i :: 0 <= i < |m| ==> m[i] == ByteAt(c, i, a)
  {
    if Shaped(c) then seq(|c.store|, i requires 0 <= i < |c.store| => ByteAt(c, i, a)) else []
  }

  lemma SameContents(c: Cache, d: Cache, a: Assignment)
    requires Shaped(c) && Shaped(d) && SameBytes(c, d)
    ensures Contents(c, a) == Contents(d, a)
  {
    hide ByteAt, Shaped;
    forall i: nat | i < |c.store| ensures Contents(c, a)[i] == Contents(d, a)[i] {
      assert ByteAt(c, i, a) == ByteAt(d, i, a);
    }
  }

  /** A memory of its own: no sharing, no caches, no epochs. */
  type Plain = map<MemoryObject, seq<Byte>>

  /** One step of a program that forks states and allocates, frees, reads and writes their memory. */
  datatype Op =
    | ForkSpace
    | Allocate(mo: MemoryObject)
    | AllocateSymbolic(mo: MemoryObject, arr: Array)
    | Free(mo: MemoryObject)
    | WriteByte(mo: MemoryObject, offset: nat, value: Expr)
    | WriteSymbolic(mo: MemoryObject, index: Expr, value: Expr)
    | ReadByte(mo: MemoryObject, offset: nat)
    | ReadSymbolic(mo: MemoryObject, index: Expr)

  datatype Command = Command(space: nat, op: Op)

  predicate IsByteExpr(e: Expr) { WellTyped(e) && Width(e) == INT8 }

  function EvalByte(e: Expr, a: Assignment): Byte
    requires IsByteExpr(e)
  {
    Eval(e, a)
  }

  function EvalIndex(e: Expr, a: Assignment): nat
    requires IsIndex(e)
  {
    ToNat(Eval(e, a))
  }

  function Put(m: seq<Byte>, i: nat, b: Byte): (r: seq<Byte>)
  {
    if i < |m| then m[i := b] else m
  }

  /** `p` with byte `i` of `mo` replaced, if there is one. */
  ghost function Written(p: Plain, mo: MemoryObject, i: nat, b: Byte): Plain {
    if mo in p then p[mo := Put(p[mo], i, b)] else p
  }

  /** New memory is zero, or what an array says. */
  ghost function InitialContents(mo: MemoryObject, arr: Option<Array>, a: Assignment): seq<Byte>
    requires RootOk(arr)
  {
    if arr.None? then seq(mo.size, _ => ZERO_BYTE) else seq(mo.size, i requires 0 <= i => InitialByte(arr.value, i, a))
  }

  predicate IsIndex(e: Expr) { WellTyped(e) && Width(e) == INT32 && !e.Const? }

  /** Operations on unbound objects, writes to read-only ones, constant offsets outside the object and ill-typed values
      do nothing: the executor ends the path instead. */
  predicate Enabled(p: set<MemoryObject>, frozen: set<MemoryObject>, op: Op) {
    match op
    case ForkSpace => true
    case Allocate(mo) => mo.size < Pow2(INT32)
    case AllocateSymbolic(mo, arr) => mo.size < Pow2(INT32) && RootOk(Some(arr))
    case Free(_) => true
    case WriteByte(mo, offset, v) => mo in p && mo !in frozen && offset < mo.size && IsByteExpr(v)
    case WriteSymbolic(mo, index, v) => mo in p && mo !in frozen && IsIndex(index) && IsByteExpr(v)
    case ReadByte(mo, offset) => mo in p && offset < mo.size
    case ReadSymbolic(mo, index) => mo in p && IsIndex(index)
  }

  /** Read-only objects are set up once, before the first fork. */
  predicate SetsUp(frozen: set<MemoryObject>, op: Op) {
    (op.Allocate? && op.mo in frozen) || (op.AllocateSymbolic? && op.mo in frozen)
  }

  /** What the operation does to a memory that nobody shares. */
  ghost function PlainStep(p: Plain, frozen: set<MemoryObject>, op: Op, a: Assignment): Plain {
    if !Enabled(p.Keys, frozen, op) then p
    else match op
      case Allocate(mo) => p[mo := InitialContents(mo, None, a)]
      case AllocateSymbolic(mo, arr) => p[mo := InitialContents(mo, Some(arr), a)]
      case Free(mo) => p - {mo}
      case WriteByte(mo, offset, v) => Written(p, mo, offset, EvalByte(v, a))
      case WriteSymbolic(mo, index, v) => Written(p, mo, EvalIndex(index, a), EvalByte(v, a))
      case _ => p
  }

  /** What a read returns, where it stays inside the object. */
  ghost function PlainRead(p: Plain, op: Op, a: Assignment): Option<Byte> {
    if !Enabled(p.Keys, {}, op) then None
    else match op
      case ReadByte(mo, offset) => if offset < |p[mo]| then Some(p[mo][offset]) else None
      case ReadSymbolic(mo, index) =>
        var i := EvalIndex(index, a);
        if i < |p[mo]| then Some(p[mo][i]) else None
      case _ => None
  }

  /** Independent memories: a fork copies, everything else touches one of them. */
  ghost function PlainWorldStep(w: seq<Plain>, frozen: set<MemoryObject>, c: Command, a: Assignment): seq<Plain> {
    if c.space >= |w| then w
    else if c.op.ForkSpace? then w + [w[c.space]]
    else w[c.space := PlainStep(w[c.space], frozen, c.op, a)]
  }

  ghost function PlainWorldRead(w: seq<Plain>, c: Command, a: Assignment): Option<Byte> {
    if c.space >= |w| then None else PlainRead(w[c.space], c.op, a)
  }

  ghost function PlainRun(w: seq<Plain>, frozen: set<MemoryObject>, cs: seq<Command>, a: Assignment): seq<Plain> {
    if cs == [] then w else PlainWorldStep(PlainRun(w, frozen, cs[..|cs| - 1], a), frozen, cs[|cs| - 1], a)
  }

  /** From `m` to `n`, memory `k` alone changed: `mo` holds these bytes. */
  ghost predicate Holding(m: seq<Plain>, n: seq<Plain>, k: nat, mo: MemoryObject, bytes: seq<Byte>) {
    k < |m| && n == m[k := m[k][mo := bytes]]
  }

  /** It holds `mo` no longer. */
  ghost predicate Without(m: seq<Plain>, n: seq<Plain>, k: nat, mo: MemoryObject) {
    k < |m| && n == m[k := m[k] - {mo}]
  }

  /** Byte `i` of `mo` was replaced. */
  ghost predicate Wrote(m: seq<Plain>, n: seq<Plain>, k: nat, mo: MemoryObject, i: nat, b: Byte) {
    k < |m| && n == m[k := Written(m[k], mo, i, b)]
  }

  /** The last of `n` is a new copy of memory `k`. */
  ghost predicate Forked(m: seq<Plain>, n: seq<Plain>, k: nat) {
    k < |m| && n == m + [m[k]]
  }

  /** An answer that is right wherever the read stays inside its object. */
  ghost predicate Answers(e: Option<Expr>, r: Option<Byte>, a: Assignment) {
    r.Some? ==> e.Some? && IsByteExpr(e.value) && Eval(e.value, a) == r.value
  }

  /** So far every answer is right. */
  ghost predicate AllAnswered(es: seq<Option<Expr>>, w: seq<Plain>, frozen: set<MemoryObject>, cs: seq<Command>, a: Assignment) {
    |es| <= |cs| && forall n: nat :: n < |es| ==> Answers(es[n], PlainWorldRead(PlainRun(w, frozen, cs[..n], a), cs[n], a), a)
  }

  predicate NoSetUp(frozen: set<MemoryObject>, cs: seq<Command>) { forall c :: c in cs ==> !SetsUp(frozen, c.op) }

  lemma NothingRun(w: seq<Plain>, frozen: set<MemoryObject>, cs: seq<Command>, a: Assignment)
    ensures PlainRun(w, frozen, cs[..0], a) == w && AllAnswered([], w, frozen, cs, a)
  {
  }

  lemma NoSetUpAt(frozen: set<MemoryObject>, cs: seq<Command>, n: nat)
    requires n < |cs|
    ensures NoSetUp(frozen, cs) ==> !SetsUp(frozen, cs[n].op)
  {
  }

  lemma OneMoreRun(es: seq<Option<Expr>>, e: Option<Expr>, w: seq<Plain>, frozen: set<MemoryObject>, cs: seq<Command>,
      a: Assignment)
    requires |es| < |cs|
    ensures PlainRun(w, frozen, cs[..|es| + 1], a) == PlainWorldStep(PlainRun(w, frozen, cs[..|es|], a), frozen, cs[|es|], a)
    ensures AllAnswered(es, w, frozen, cs, a) && Answers(e, PlainWorldRead(PlainRun(w, frozen, cs[..|es|], a), cs[|es|], a), a)
      ==> AllAnswered(es + [e], w, frozen, cs, a)
  {
    hide PlainWorldStep, PlainWorldRead, Answers, SetsUp;
    assert cs[..|es| + 1][..|es|] == cs[..|es|];
  }

  lemma SelfUpdate(p: Plain, mo: MemoryObject)
    requires mo in p
    ensures p[mo := p[mo]] == p
  {
  }

  lemma Idle(p: Plain, frozen: set<MemoryObject>, op: Op, a: Assignment)
    ensures !Enabled(p.Keys, frozen, op) || op.ForkSpace? || op.ReadByte? || op.ReadSymbolic? ==> PlainStep(p, frozen, op, a) == p
    ensures !Enabled(p.Keys, frozen, op) || !(op.ReadByte? || op.ReadSymbolic?) ==> PlainRead(p, op, a).None?
  {
  }

  class World {
    /** The objects that are read-only, such as constant globals. */
    const frozen: set<MemoryObject>
    var spaces: seq<AddressSpace>
    /** Every object state that was ever bound. */
    ghost var objs: set<ObjectState>

    /** Objects are well formed and share no memory. */
    ghost predicate ObjectsOk()
      reads this, objs, set o, x | o in objs && x in o.Repr :: x
    {
      && (forall o :: o in objs ==> o.Valid())
      && (forall o, p :: o in objs && p in objs && o != p ==> o.Repr !! p.Repr)
    }

    /** The spaces are distinct and lie outside the objects. */
    ghost predicate SpacesOk()
      reads this, objs
    {
      && (forall o :: o in objs ==> this !in o.Repr)
      && (forall i, j :: 0 <= i < j < |spaces| ==> spaces[i] != spaces[j])
      && (forall i, o :: 0 <= i < |spaces| && o in objs ==> spaces[i] !in o.Repr)
    }

    /** Nothing is owned beyond its space's epoch; read-only are exactly the frozen objects. */
    ghost predicate OwnersOk()
      reads this, spaces, objs
    {
      && (forall i :: 0 <= i < |spaces| ==> spaces[i].cowKey > 0)
      && (forall i, mo :: 0 <= i < |spaces| && mo in spaces[i].objects ==>
            && spaces[i].objects[mo] in objs && spaces[i].objects[mo].mo == mo
            && 0 < spaces[i].objects[mo].copyOnWriteOwner <= spaces[i].cowKey)
      && (forall i, mo :: 0 <= i < |spaces| && mo in spaces[i].objects ==> IsFrozen(mo, spaces[i].objects[mo].readOnly))
    }

    predicate IsFrozen(mo: MemoryObject, readOnly: bool) { readOnly == (mo in frozen) }

    /** The ownership discipline: what two spaces share is owned strictly before both epochs,
        although a fork leaves both spaces in the same one. */
    ghost predicate BindingsOk()
      reads this, spaces, objs
    {
      && OwnersOk()
      && (forall i, j, mo ::
            0 <= i < |spaces| && 0 <= j < |spaces| && i != j && mo in spaces[i].objects && mo in spaces[j].objects
            ==> spaces[i].objects[mo] != spaces[j].objects[mo] || spaces[i].objects[mo].copyOnWriteOwner < spaces[i].cowKey)
    }

    ghost predicate Valid()
      reads this, spaces, objs, set o, x | o in objs && x in o.Repr :: x
    {
      ObjectsOk() && SpacesOk() && BindingsOk()
    }

    /** Spaces that bind a read-only object bind the same object state to it. */
    ghost predicate FrozenShared()
      reads this, spaces
    {
      forall i: nat, j: nat, mo :: i < |spaces| && j < |spaces| && mo in frozen && mo in spaces[i].objects &&
        mo in spaces[j].objects
        ==> spaces[i].objects[mo] == spaces[j].objects[mo]
    }

    twostate predicate KeepsFrozen()
      reads this, spaces
    {
      old(FrozenShared()) ==> FrozenShared()
    }

    /** Space `k` binds the object. */
    predicate Binds(k: nat, mo: MemoryObject)
      reads this, spaces
    {
      k < |spaces| && mo in spaces[k].objects
    }

    /** What is bound in space `i`. */
    ghost function Bound(i: nat): set<ObjectState>
      requires i < |spaces|
      reads this, spaces
    {
      set mo | mo in spaces[i].objects :: spaces[i].objects[mo]
    }

    /** Space `i` as a memory of its own. */
    ghost function PlainOf(i: nat, a: Assignment): (p: Plain)
      requires i < |spaces|
      reads this, spaces, Bound(i)
      ensures p.Keys == spaces[i].objects.Keys
    {
      map mo | mo in spaces[i].objects :: Contents(spaces[i].objects[mo].cache, a)
    }

    /** The memories of the first `n` spaces. */
    ghost function Plains(n: nat, a: Assignment): (w: seq<Plain>)
      requires n <= |spaces|
      reads this, spaces, set i, mo | 0 <= i < |spaces| && mo in spaces[i].objects :: spaces[i].objects[mo]
      ensures |w| == n && forall i: nat :: i < n ==> w[i] == PlainOf(i, a)
    {
      if n == 0 then [] else Plains(n - 1, a) + [PlainOf(n - 1, a)]
    }

    ghost function Memories(a: Assignment): (w: seq<Plain>)
      reads this, spaces, set i, mo | 0 <= i < |spaces| && mo in spaces[i].objects :: spaces[i].objects[mo]
      ensures |w| == |spaces| && forall i: nat :: i < |w| ==> w[i] == PlainOf(i, a)
    {
      Plains(|spaces|, a)
    }

    constructor (frozen: set<MemoryObject>)
      ensures Valid() && |spaces| == 1 && spaces[0].objects == map[] && this.frozen == frozen
    {
      this.frozen := frozen;
      var s := new AddressSpace();
      spaces, objs := [s], {};
    }

    /** All the memory this world may touch. */
    ghost function Footprint(): set<object>
      reads this, objs
    {
      {this} + (set i | 0 <= i < |spaces| :: spaces[i] as object) + (set o | o in objs :: o as object) + (set o, y | o in objs && y in o.Repr :: y)
    }

    /** What the footprint gained is newly allocated. */
    twostate predicate Grew()
      reads this, objs
    {
      forall y :: y in Footprint() ==> y in old(Footprint()) || fresh(y)
    }

    // ----- nothing changes here

    twostate predicate Undisturbed()
      reads this, spaces, objs, set o, y | o in objs && y in o.Repr :: y
    {
      && spaces == old(spaces) && objs == old(objs) && (forall i :: 0 <= i < |spaces| ==> unchanged(spaces[i]))
      && (forall o :: o in objs ==> unchanged(o) && unchanged(o.Repr))
    }

    twostate lemma UndisturbedKeepsObjects()
      requires old(Valid()) && Undisturbed()
      ensures ObjectsOk() && SpacesOk() && Grew()
    {
      hide CacheInv, Shaped, BindingsOk;
    }

    twostate lemma UndisturbedKeepsValid()
      requires old(Valid()) && Undisturbed()
      ensures Valid() && Grew() && KeepsFrozen()
    {
      hide CacheInv, Shaped, ObjectsOk, SpacesOk, Grew;
      UndisturbedKeepsObjects();
      forall i: nat, m | i < |spaces| && m in spaces[i].objects ensures spaces[i].objects[m] in objs &&
        unchanged(spaces[i].objects[m]) {
        assert old(spaces[i].objects[m] in objs);
      }
    }

    twostate lemma UndisturbedPlain(new i: nat, new a: Assignment)
      requires old(Valid()) && Undisturbed() && i < |spaces|
      ensures PlainOf(i, a) == old(PlainOf(i, a))
    {
      hide CacheInv, Shaped, Contents;
    }

    twostate lemma UndisturbedMemories(new a: Assignment)
      requires old(Valid()) && Undisturbed()
      ensures Memories(a) == old(Memories(a))
    {
      hide Valid, PlainOf, Memories;
      forall i: nat | i < |spaces| ensures PlainOf(i, a) == old(PlainOf(i, a)) {
        UndisturbedPlain(i, a);
      }
    }

    // ----- one object changes

    /** Nothing but the object `x` changed, and `x` kept its owner. */
    twostate predicate OnlyTouched(x: ObjectState)
      reads this, spaces, objs, set o, y | o in objs && y in o.Repr :: y
    {
      && unchanged(this) && (forall i :: 0 <= i < |spaces| ==> unchanged(spaces[i]))
      && (forall o :: o in objs && o != x ==> unchanged(o) && unchanged(o.Repr))
      && x in objs && x.Valid() && x.Kept()
    }

    twostate lemma TouchedKeepsObjects(x: ObjectState)
      requires old(Valid()) && OnlyTouched(x)
      ensures ObjectsOk() && SpacesOk()
    {
      hide CacheInv, Shaped, BindingsOk;
    }

    twostate lemma TouchedKeepsValid(x: ObjectState)
      requires old(Valid()) && OnlyTouched(x)
      ensures Valid()
    {
      hide ObjectsOk, SpacesOk, BindingsOk, OnlyTouched;
      TouchedKeepsObjects(x);
      TouchedKeepsBindings(x);
    }

    twostate lemma TouchedKeepsBindings(x: ObjectState)
      requires old(Valid()) && OnlyTouched(x)
      ensures BindingsOk()
    {
      hide CacheInv, Shaped, ObjectsOk, SpacesOk;
      forall i: nat, m | i < |spaces| && m in spaces[i].objects
        ensures spaces[i].objects[m].mo == old(spaces[i].objects[m].mo) &&
          spaces[i].objects[m].readOnly == old(spaces[i].objects[m].readOnly)
        ensures spaces[i].objects[m].copyOnWriteOwner == old(spaces[i].objects[m].copyOnWriteOwner)
      {
        assert old(spaces[i].objects[m] in objs);
      }
    }

    /** Where a touched object is not bound, nothing changed. */
    twostate lemma TouchedElsewhere(x: ObjectState, new i: nat, new a: Assignment)
      requires old(Valid()) && OnlyTouched(x) && i < |spaces| && x !in old(Bound(i))
      ensures PlainOf(i, a) == old(PlainOf(i, a))
    {
      hide CacheInv, Shaped, Contents;
    }

    /** Where a touched object kept its bytes, nothing changed either. */
    twostate lemma TouchedSameBytes(x: ObjectState, new i: nat, new a: Assignment)
      requires old(Valid()) && OnlyTouched(x) && i < |spaces|
      requires Shaped(old(x.cache)) && Shaped(x.cache) && SameBytes(old(x.cache), x.cache)
      ensures PlainOf(i, a) == old(PlainOf(i, a))
    {
      hide CacheInv, Shaped, Contents, SameBytes;
      SameContents(old(x.cache), x.cache, a);
    }

    /** Where a touched object is bound once, only that entry changed. */
    twostate lemma TouchedHere(x: ObjectState, new k: nat, new mo: MemoryObject, new a: Assignment)
      requires old(Valid()) && OnlyTouched(x) && k < |spaces|
      requires mo in spaces[k].objects && spaces[k].objects[mo] == x
      ensures PlainOf(k, a) == old(PlainOf(k, a))[mo := Contents(x.cache, a)]
    {
      hide CacheInv, Shaped, Contents;
    }

    twostate lemma TouchedGrew(x: ObjectState)
      requires old(Valid()) && OnlyTouched(x)
      ensures Grew() && KeepsFrozen()
    {
      hide CacheInv, Shaped, Contents;
    }

    /** `x` is bound to `mo` in space `k`, and nowhere else. */
    ghost predicate Exclusive(k: nat, mo: MemoryObject, x: ObjectState)
      requires k < |spaces|
      reads this, spaces
    {
      && mo in spaces[k].objects && spaces[k].objects[mo] == x
      && forall i: nat, m :: i < |spaces| && m in spaces[i].objects && (i != k || m != mo) ==> spaces[i].objects[m] != x
    }

    /** What a space owns, no other space has bound. */
    lemma OwnedIsExclusive(k: nat, mo: MemoryObject)
      requires Valid() && k < |spaces| && mo in spaces[k].objects
      requires spaces[k].objects[mo].copyOnWriteOwner == spaces[k].cowKey
      ensures Exclusive(k, mo, spaces[k].objects[mo])
    {
      hide ObjectsOk, SpacesOk;
    }

    /** A change to an object that only one space has bound is seen there and nowhere else. */
    twostate lemma TouchedExclusive(x: ObjectState, new k: nat, new mo: MemoryObject, new i: nat, new a: Assignment)
      requires old(Valid()) && OnlyTouched(x) && old(k < |spaces| && Exclusive(k, mo, x)) && i < |spaces|
      ensures PlainOf(i, a) == if i == k then old(PlainOf(i, a))[mo := Contents(x.cache, a)] else old(PlainOf(i, a))
      ensures mo in old(PlainOf(k, a)) && old(PlainOf(k, a))[mo] == old(Contents(x.cache, a))
    {
      hide CacheInv, Shaped, Contents, ObjectsOk, SpacesOk, BindingsOk;
      if i == k {
        TouchedHere(x, k, mo, a);
      } else {
        TouchedElsewhere(x, i, a);
      }
    }

    twostate lemma TouchedMemories(x: ObjectState, new k: nat, new mo: MemoryObject, new a: Assignment)
      requires old(Valid()) && OnlyTouched(x) && old(k < |spaces| && Exclusive(k, mo, x))
      ensures Holding(old(Memories(a)), Memories(a), k, mo, Contents(x.cache, a))
      ensures k < |old(Memories(a))| && mo in old(Memories(a))[k] && old(Memories(a))[k][mo] == old(Contents(x.cache, a))
    {
      hide Contents, Valid, Exclusive, PlainOf, Memories;
      TouchedExclusive(x, k, mo, k, a);
      forall i: nat | i < |spaces| ensures PlainOf(i, a) == if i == k
        then old(PlainOf(i, a))[mo := Contents(x.cache, a)] else old(PlainOf(i, a)) {
        TouchedExclusive(x, k, mo, i, a);
      }
    }

    // ----- one fresh object is bound

    /** The only change is that space `k` now binds the new object `x`. */
    twostate predicate OnlyBound(new k: nat, new mo: MemoryObject, new x: ObjectState)
      requires k < |spaces|
      reads this, spaces, objs, set o, y | o in objs && y in o.Repr :: y
    {
      && spaces == old(spaces) && objs == old(objs) + {x}
      && (forall i :: 0 <= i < |spaces| && i != k ==> unchanged(spaces[i]))
      && spaces[k].cowKey == old(spaces[k].cowKey) && spaces[k].objects == old(spaces[k].objects)[mo := x]
      && (forall o :: o in old(objs) ==> unchanged(o) && unchanged(o.Repr))
      && fresh(x) && fresh(x.Repr) && x.Valid() && x.readOnly == (mo in frozen) && x.mo == mo &&
        x.copyOnWriteOwner == spaces[k].cowKey
    }

    twostate lemma BoundKeepsObjects(new k: nat, new mo: MemoryObject, new x: ObjectState)
      requires old(Valid()) && k < |spaces| && OnlyBound(k, mo, x)
      ensures ObjectsOk() && SpacesOk()
    {
      hide CacheInv, Shaped, BindingsOk;
    }

    /** All other bindings are the old ones. */
    twostate lemma BoundOld(new k: nat, new mo: MemoryObject, new x: ObjectState, new i: nat, new m: MemoryObject)
      requires old(Valid()) && k < |spaces| && OnlyBound(k, mo, x)
      requires i < |spaces| && m in spaces[i].objects && (i != k || m != mo)
      ensures spaces[i].cowKey == old(spaces[i].cowKey)
      ensures m in old(spaces[i].objects) && spaces[i].objects[m] == old(spaces[i].objects[m])
      ensures spaces[i].objects[m] in old(objs) && spaces[i].objects[m] in objs && spaces[i].objects[m] != x &&
        unchanged(spaces[i].objects[m])
    {
      hide CacheInv, Shaped, ObjectsOk, SpacesOk;
    }

    twostate lemma BoundKeepsOwners(new k: nat, new mo: MemoryObject, new x: ObjectState)
      requires old(Valid()) && k < |spaces| && OnlyBound(k, mo, x)
      ensures OwnersOk() && Exclusive(k, mo, x)
    {
      hide CacheInv, Shaped, ObjectsOk, SpacesOk;
      forall i: nat, m | i < |spaces| && m in spaces[i].objects && (i != k || m != mo)
        ensures spaces[i].cowKey == old(spaces[i].cowKey) && m in old(spaces[i].objects) &&
          spaces[i].objects[m] == old(spaces[i].objects[m])
        ensures spaces[i].objects[m] in objs && spaces[i].objects[m] != x && unchanged(spaces[i].objects[m])
      {
        BoundOld(k, mo, x, i, m);
      }
    }

    twostate lemma BoundKeepsBindings(new k: nat, new mo: MemoryObject, new x: ObjectState)
      requires old(Valid()) && k < |spaces| && OnlyBound(k, mo, x)
      ensures BindingsOk() && Exclusive(k, mo, x)
    {
      hide CacheInv, Shaped, ObjectsOk, SpacesOk, OwnersOk;
      BoundKeepsOwners(k, mo, x);
      forall i: nat, m | i < |spaces| && m in spaces[i].objects && (i != k || m != mo)
        ensures spaces[i].cowKey == old(spaces[i].cowKey) && m in old(spaces[i].objects) &&
          spaces[i].objects[m] == old(spaces[i].objects[m])
        ensures spaces[i].objects[m] != x && unchanged(spaces[i].objects[m])
      {
        BoundOld(k, mo, x, i, m);
      }
      assert x == spaces[k].objects[mo] && |spaces| == |old(spaces)|;
    }

    twostate lemma BoundElsewhere(new k: nat, new mo: MemoryObject, new x: ObjectState, new i: nat, new a: Assignment)
      requires old(Valid()) && k < |spaces| && OnlyBound(k, mo, x) && i < |spaces| && i != k
      ensures PlainOf(i, a) == old(PlainOf(i, a))
    {
      hide CacheInv, Shaped, Contents;
    }

    twostate lemma BoundHere(new k: nat, new mo: MemoryObject, new x: ObjectState, new a: Assignment)
      requires old(Valid()) && k < |spaces| && OnlyBound(k, mo, x)
      ensures PlainOf(k, a) == old(PlainOf(k, a))[mo := Contents(x.cache, a)]
    {
      hide CacheInv, Shaped, Contents;
    }

    twostate lemma BoundGrew(new k: nat, new mo: MemoryObject, new x: ObjectState)
      requires old(Valid()) && k < |spaces| && OnlyBound(k, mo, x)
      ensures Grew()
    {
      hide CacheInv, Shaped, Contents, BindingsOk;
    }

    twostate lemma BoundKeepsFrozen(new k: nat, new mo: MemoryObject, new x: ObjectState)
      requires k < |spaces| && OnlyBound(k, mo, x) && old(k < |spaces|) && mo !in frozen
      ensures KeepsFrozen()
    {
      hide CacheInv, Shaped;
    }

    // ----- only spaces change

    /** The only change is that space `k` no longer binds `mo`. */
    twostate predicate OnlyUnbound(new k: nat, new mo: MemoryObject)
      requires k < |spaces|
      reads this, spaces, objs, set o, y | o in objs && y in o.Repr :: y
    {
      && spaces == old(spaces) && objs == old(objs) && (forall o :: o in objs ==> unchanged(o) && unchanged(o.Repr))
      && (forall i :: 0 <= i < |spaces| && i != k ==> unchanged(spaces[i]))
      && spaces[k].cowKey == old(spaces[k].cowKey) && spaces[k].objects == old(spaces[k].objects) - {mo}
    }

    twostate lemma UnboundKeepsObjects(new k: nat, new mo: MemoryObject)
      requires old(Valid()) && k < |spaces| && OnlyUnbound(k, mo)
      ensures ObjectsOk() && SpacesOk() && Grew() && KeepsFrozen()
    {
      hide CacheInv, Shaped, BindingsOk;
    }

    twostate lemma UnboundKeepsBindings(new k: nat, new mo: MemoryObject)
      requires old(Valid()) && k < |spaces| && OnlyUnbound(k, mo)
      ensures BindingsOk()
    {
      hide CacheInv, Shaped, ObjectsOk, SpacesOk;
      assert forall i, m :: 0 <= i < |spaces| && m in spaces[i].objects ==>
        m in old(spaces[i].objects) && spaces[i].objects[m] == old(spaces[i].objects[m]) && spaces[i].objects[m] in old(objs);
    }

    twostate lemma UnboundPlain(new k: nat, new mo: MemoryObject, new i: nat, new a: Assignment)
      requires old(Valid()) && k < |spaces| && OnlyUnbound(k, mo) && i < |spaces|
      ensures PlainOf(i, a) == if i == k then old(PlainOf(i, a)) - {mo} else old(PlainOf(i, a))
    {
      hide CacheInv, Shaped, Contents;
    }

    /** The only change is a new space with what space `k` binds; both are in the same new epoch. */
    twostate predicate OnlyForked(new k: nat)
      requires k < |old(spaces)| < |spaces|
      reads this, spaces, objs, set o, y | o in objs && y in o.Repr :: y
    {
      && spaces[..|spaces| - 1] == old(spaces) && fresh(spaces[|spaces| - 1])
      && objs == old(objs) && (forall o :: o in objs ==> unchanged(o) && unchanged(o.Repr))
      && (forall i :: 0 <= i < |old(spaces)| && i != k ==> unchanged(spaces[i]))
      && spaces[k].cowKey == old(spaces[k].cowKey) + 1 == spaces[|spaces| - 1].cowKey
      && spaces[k].objects == old(spaces[k].objects) == spaces[|spaces| - 1].objects
    }

    twostate lemma ForkKeepsObjects(new k: nat)
      requires old(Valid()) && k < |old(spaces)| < |spaces| && OnlyForked(k)
      ensures ObjectsOk() && SpacesOk() && Grew()
    {
      hide CacheInv, Shaped, BindingsOk;
      assert forall i :: 0 <= i < |old(spaces)| ==> spaces[i] == old(spaces[i]);
      assert forall i :: 0 <= i < |spaces| ==> i < |old(spaces)| || spaces[i] == spaces[|spaces| - 1];
    }

    twostate lemma ForkKeepsOwners(new k: nat)
      requires old(Valid()) && k < |old(spaces)| < |spaces| && OnlyForked(k)
      ensures OwnersOk()
    {
      hide CacheInv, Shaped, ObjectsOk, SpacesOk;
      assert forall i :: 0 <= i < |old(spaces)| ==> spaces[i] == old(spaces[i]);
      forall i: nat, mo | i < |spaces| && mo in spaces[i].objects
        ensures spaces[i].objects[mo] in objs && spaces[i].objects[mo].mo == mo
        ensures 0 < spaces[i].objects[mo].copyOnWriteOwner <= spaces[i].cowKey
      {
        assert i < |old(spaces)| || (spaces[i].objects == old(spaces[k].objects) && spaces[i].cowKey > old(spaces[k].cowKey));
        assert old(spaces[if i < |spaces| then i else k].objects[mo] in objs);
      }
    }

    twostate lemma ForkKeepsBindings(new k: nat)
      requires old(Valid()) && k < |old(spaces)| < |spaces| && OnlyForked(k)
      ensures BindingsOk()
    {
      hide CacheInv, Shaped, ObjectsOk, SpacesOk;
      ForkKeepsOwners(k);
      assert forall i :: 0 <= i < |old(spaces)| ==> spaces[i] == old(spaces[i]);
      assert forall i, mo :: 0 <= i < |old(spaces)| && mo in spaces[i].objects ==> unchanged(old(spaces[i].objects[mo]));
    }

    twostate lemma ForkKeepsFrozen(new k: nat)
      requires old(Valid()) && k < |old(spaces)| < |spaces| && OnlyForked(k) && old(FrozenShared())
      ensures FrozenShared()
    {
      hide Valid;
      forall i: nat | i < |spaces| ensures spaces[i].objects == old(spaces[if i < |spaces| then i else k].objects) {
        assert i < |old(spaces)| ==> spaces[i] == old(spaces[i]);
      }
    }

    /** Every binding is inherited, and its object is as it was. */
    twostate lemma ForkOld(new k: nat, new i: nat, new m: MemoryObject)
      requires old(Valid()) && k < |old(spaces)| < |spaces| && OnlyForked(k) && i < |spaces| && m in spaces[i].objects
      ensures spaces[i].objects == old(spaces[if i < |spaces| then i else k].objects)
      ensures m in old(spaces[if i < |spaces| then i else k].objects)
      ensures spaces[i].objects[m].cache == old(spaces[if i < |spaces| then i else k].objects[m].cache)
    {
      hide CacheInv, Shaped, ObjectsOk, SpacesOk;
      assert i < |old(spaces)| ==> spaces[i] == old(spaces[i]);
    }

    twostate lemma ForkPlain(new k: nat, new i: nat, new a: Assignment)
      requires old(Valid()) && k < |old(spaces)| < |spaces| && OnlyForked(k) && i < |spaces|
      ensures PlainOf(i, a) == old(PlainOf(if i < |spaces| then i else k, a))
    {
      hide Valid, Contents;
      assert i < |old(spaces)| ==> spaces[i] == old(spaces[i]);
      forall m | m in spaces[i].objects
        ensures m in old(spaces[if i < |spaces| then i else k].objects)
        ensures spaces[i].objects[m].cache == old(spaces[if i < |spaces| then i else k].objects[m].cache)
      {
        ForkOld(k, i, m);
      }
    }

    // ----- the operations

    /** Binding a copy of what was bound changes nobody's memory. */
    twostate lemma BoundCopy(new k: nat, new mo: MemoryObject, new x: ObjectState, new a: Assignment)
      requires old(Valid()) && k < |spaces| && OnlyBound(k, mo, x)
      requires old(k < |spaces| && mo in spaces[k].objects) && x.cache == old(spaces[k].objects[mo].cache)
      ensures PlainOf(k, a) == old(PlainOf(k, a))
    {
      hide Valid, PlainOf, Contents, OnlyBound;
      BoundHere(k, mo, x, a);
      PlainHad(k, mo, a);
      SelfUpdate(old(PlainOf(k, a)), mo);
    }

    twostate lemma PlainHad(new k: nat, new mo: MemoryObject, new a: Assignment)
      requires old(k < |spaces| && mo in spaces[k].objects)
      ensures mo in old(PlainOf(k, a)) && old(PlainOf(k, a))[mo] == Contents(old(spaces[k].objects[mo].cache), a)
    {
      hide Contents;
    }

    /** getWriteable where the space does not own the object. */
    method CopyForWrite(k: nat, mo: MemoryObject) returns (wos: ObjectState)
      requires Valid() && Binds(k, mo) && mo !in frozen
      requires spaces[k].cowKey != spaces[k].objects[mo].copyOnWriteOwner
      modifies this`objs, spaces[k]
      ensures spaces == old(spaces) && objs == old(objs) + {wos} && fresh(wos) && fresh(wos.Repr) && wos.mo == mo
      ensures OnlyBound(k, mo, wos) && wos.cache == old(spaces[k].objects[mo].cache)
    {
      hide CacheInv, Shaped, ObjectsOk, BindingsOk;
      InObjs(k, mo);
      wos := spaces[k].GetWriteable(mo, spaces[k].objects[mo]);
      objs := objs + {wos};
    }

    /** getWriteable: nobody else sees the object afterwards, and every space reads the same bytes as before. */
    method Own(k: nat, mo: MemoryObject) returns (wos: ObjectState)
      requires Valid() && Binds(k, mo) && mo !in frozen
      modifies this`objs, spaces[k]
      ensures Valid() && spaces == old(spaces) && wos in objs && Exclusive(k, mo, wos) && wos.mo == mo
      ensures KeepsFrozen()
      ensures Grew()
      ensures forall a: Assignment :: Memories(a) == old(Memories(a))
    {
      hide ObjectsOk, SpacesOk, BindingsOk, OnlyBound, PlainOf, Exclusive, Bound, Footprint, FrozenShared;
      if spaces[k].cowKey == spaces[k].objects[mo].copyOnWriteOwner {
        OwnedIsExclusive(k, mo);
        wos := spaces[k].objects[mo];
        InObjs(k, mo);
      } else {
        wos := CopyForWrite(k, mo);
        BoundKeepsObjects(k, mo, wos);
        BoundKeepsBindings(k, mo, wos);
        BoundGrew(k, mo, wos);
        BoundKeepsFrozen(k, mo, wos);
        forall a: Assignment ensures Memories(a) == old(Memories(a)) {
          forall i: nat | i < |spaces| ensures PlainOf(i, a) == old(PlainOf(i, a)) {
            if i == k {
              BoundCopy(k, mo, wos, a);
            } else {
              BoundElsewhere(k, mo, wos, i, a);
            }
          }
        }
      }
    }

    lemma InObjs(k: nat, mo: MemoryObject)
      requires Valid() && k < |spaces| && mo in spaces[k].objects
      ensures spaces[k].objects[mo] in objs && spaces[k].objects[mo].mo == mo
      ensures spaces[k].objects[mo].Valid() && spaces[k].objects[mo].readOnly == (mo in frozen)
    {
    }

    /** A new object, zero or the contents of an array. */
    static method MakeObject(mo: MemoryObject, arr: Option<Array>, readOnly: bool) returns (os: ObjectState)
      requires mo.size < Pow2(INT32) && RootOk(arr)
      ensures fresh(os) && fresh(os.Repr) && os.Valid() && os.mo == mo && os.copyOnWriteOwner == 0 && os.readOnly == readOnly
      ensures forall a: Assignment :: Contents(os.cache, a) == InitialContents(mo, arr, a)
    {
      hide CacheInv, Shaped, Pow2, InitialByte, ByteAt;
      if arr.Some? {
        os := new ObjectState.Symbolic(mo, arr.value);
      } else {
        os := new ObjectState(mo);
      }
      os.SetReadOnly(readOnly);
      InvShaped(os.cache);
      forall a: Assignment ensures Contents(os.cache, a) == InitialContents(mo, arr, a) {
        assert forall i: nat :: i < mo.size ==> Contents(os.cache, a)[i] == os.ByteValue(i, a);
      }
    }

    /** bindObject of a new object */
    method NewObject(k: nat, mo: MemoryObject, arr: Option<Array>) returns (os: ObjectState)
      requires Valid() && k < |spaces| && mo.size < Pow2(INT32) && RootOk(arr)
      modifies this`objs, spaces[k]
      ensures spaces == old(spaces) && OnlyBound(k, mo, os)
      ensures forall a: Assignment :: Contents(os.cache, a) == InitialContents(mo, arr, a)
    {
      hide CacheInv, Shaped, Pow2, Contents, InitialContents, ObjectsOk, BindingsOk;
      os := MakeObject(mo, arr, mo in frozen);
      spaces[k].BindObject(mo, os);
      objs := objs + {os};
    }

    method Allocate(k: nat, mo: MemoryObject, arr: Option<Array>)
      requires Valid() && k < |spaces| && mo.size < Pow2(INT32) && RootOk(arr)
      modifies this`objs, spaces[k]
      ensures Valid() && spaces == old(spaces) && Grew()
      ensures mo !in frozen ==> KeepsFrozen()
      ensures forall a: Assignment :: Holding(old(Memories(a)), Memories(a), k, mo, InitialContents(mo, arr, a))
    {
      hide ObjectsOk, SpacesOk, BindingsOk, OnlyBound, PlainOf, Exclusive, Bound, Footprint, FrozenShared, Pow2,
        InitialContents, Contents, RootOk;
      var os := NewObject(k, mo, arr);
      BoundKeepsObjects(k, mo, os);
      BoundKeepsBindings(k, mo, os);
      BoundGrew(k, mo, os);
      if mo !in frozen {
        BoundKeepsFrozen(k, mo, os);
      }
      forall a: Assignment ensures Holding(old(Memories(a)), Memories(a), k, mo, InitialContents(mo, arr, a)) {
        BoundHere(k, mo, os, a);
        forall i: nat | i < |spaces| && i != k ensures PlainOf(i, a) == old(PlainOf(i, a)) {
          BoundElsewhere(k, mo, os, i, a);
        }
      }
    }

    method Free(k: nat, mo: MemoryObject)
      requires Valid() && k < |spaces|
      modifies spaces[k]
      ensures Valid() && spaces == old(spaces) && Grew()
      ensures KeepsFrozen()
      ensures forall a: Assignment :: Without(old(Memories(a)), Memories(a), k, mo)
    {
      hide CacheInv, Shaped, Contents, ObjectsOk, BindingsOk, PlainOf, Footprint, Grew, FrozenShared;
      spaces[k].UnbindObject(mo);
      UnboundKeepsObjects(k, mo);
      UnboundKeepsBindings(k, mo);
      forall a: Assignment ensures Without(old(Memories(a)), Memories(a), k, mo) {
        forall i: nat | i < |spaces| ensures PlainOf(i, a) == if i == k then old(PlainOf(i, a)) - {mo} else old(PlainOf(i, a)) {
          UnboundPlain(k, mo, i, a);
        }
      }
    }

    /** A fork shares every object; both spaces lose their ownership. */
    method ForkSpace(k: nat)
      requires Valid() && k < |spaces|
      modifies this`spaces, spaces[k]
      ensures Valid() && Grew() && |spaces| == |old(spaces)| + 1
      ensures KeepsFrozen()
      ensures forall a: Assignment :: Forked(old(Memories(a)), Memories(a), k)
    {
      hide CacheInv, Shaped, Contents, ObjectsOk, BindingsOk, PlainOf, Footprint, Grew, FrozenShared;
      var child := new AddressSpace.Fork(spaces[k]);
      spaces := spaces + [child];
      ForkKeepsObjects(k);
      ForkKeepsBindings(k);
      if old(FrozenShared()) {
        ForkKeepsFrozen(k);
      }
      forall a: Assignment ensures Forked(old(Memories(a)), Memories(a), k) {
        forall i: nat | i < |spaces| ensures PlainOf(i, a) == old(PlainOf(if i < |spaces| then i else k, a)) {
          ForkPlain(k, i, a);
        }
      }
    }

    /** write8 on an object of this world */
    method WriteObject(os: ObjectState, offset: nat, value: Expr)
      requires Valid() && os in objs && offset < os.mo.size && IsByteExpr(value)
      modifies os.Repr
      ensures OnlyTouched(os) && spaces == old(spaces) && objs == old(objs)
      ensures forall a: Assignment :: Contents(os.cache, a) == Put(old(Contents(os.cache, a)), offset, EvalByte(value, a))
    {
      hide CacheInv, Shaped, ByteAt, BindingsOk, Eval;
      InvShaped(os.cache);
      os.Write8(offset, value);
      InvShaped(os.cache);
      forall a: Assignment ensures Contents(os.cache, a) == Put(old(Contents(os.cache, a)), offset, EvalByte(value, a)) {
        assert forall i: nat :: i < os.mo.size ==> Contents(os.cache, a)[i] == os.ByteValue(i, a);
        assert forall i: nat :: i < os.mo.size ==> old(Contents(os.cache, a)[i] == os.ByteValue(i, a));
      }
    }

    method WriteByte(k: nat, mo: MemoryObject, offset: nat, value: Expr)
      requires Valid() && Binds(k, mo) && mo !in frozen && offset < mo.size && IsByteExpr(value)
      modifies Footprint()
      ensures Valid() && spaces == old(spaces) && Grew()
      ensures KeepsFrozen()
      ensures forall a: Assignment :: Wrote(old(Memories(a)), Memories(a), k, mo, offset, EvalByte(value, a))
    {
      hide ObjectsOk, SpacesOk, BindingsOk, OnlyTouched, FrozenShared, PlainOf, Exclusive, Bound, Contents, EvalByte,
        IsByteExpr, Put;
      var wos := Own(k, mo);
      label L:
      WriteObject(wos, offset, value);
      TouchedKeepsValid@L(wos);
      TouchedGrew@L(wos);
      forall a: Assignment ensures Wrote(old(Memories(a)), Memories(a), k, mo, offset, EvalByte(value, a)) {
        assert old@L(Memories(a)) == old(Memories(a));
        TouchedMemories@L(wos, k, mo, a);
      }
    }

    /** write8 at a symbolic offset; one outside the object writes nothing */
    method WriteObjectSymbolic(os: ObjectState, index: Expr, value: Expr)
      requires Valid() && os in objs && IsIndex(index) && IsByteExpr(value)
      modifies os.Repr
      ensures OnlyTouched(os) && spaces == old(spaces) && objs == old(objs)
      ensures forall a: Assignment ::
        Contents(os.cache, a) == Put(old(Contents(os.cache, a)), EvalIndex(index, a), EvalByte(value, a))
    {
      hide CacheInv, Shaped, ByteAt, BindingsOk, Eval;
      InvShaped(os.cache);
      os.Write8Symbolic(index, value);
      InvShaped(os.cache);
      forall a: Assignment
        ensures Contents(os.cache, a) == Put(old(Contents(os.cache, a)), EvalIndex(index, a), EvalByte(value, a))
      {
        assert forall i: nat :: i < os.mo.size ==> Contents(os.cache, a)[i] == os.ByteValue(i, a);
        assert forall i: nat :: i < os.mo.size ==> old(Contents(os.cache, a)[i] == os.ByteValue(i, a));
      }
    }

    method WriteSymbolic(k: nat, mo: MemoryObject, index: Expr, value: Expr)
      requires Valid() && Binds(k, mo) && mo !in frozen && IsIndex(index) && IsByteExpr(value)
      modifies Footprint()
      ensures Valid() && spaces == old(spaces) && Grew()
      ensures KeepsFrozen()
      ensures forall a: Assignment :: Wrote(old(Memories(a)), Memories(a), k, mo, EvalIndex(index, a), EvalByte(value, a))
    {
      hide ObjectsOk, SpacesOk, BindingsOk, OnlyTouched, FrozenShared, PlainOf, Exclusive, Bound, Contents, EvalByte,
        IsByteExpr, IsIndex, EvalIndex, Put;
      var wos := Own(k, mo);
      label L:
      WriteObjectSymbolic(wos, index, value);
      TouchedKeepsValid@L(wos);
      TouchedGrew@L(wos);
      forall a: Assignment ensures Wrote(old(Memories(a)), Memories(a), k, mo, EvalIndex(index, a), EvalByte(value, a)) {
        assert old@L(Memories(a)) == old(Memories(a));
        TouchedMemories@L(wos, k, mo, a);
      }
    }

    /** read8: it may flush the caches, but keeps the bytes */
    method ReadObject(os: ObjectState, offset: nat) returns (e: Expr)
      requires Valid() && os in objs && offset < os.mo.size
      modifies os.Repr
      ensures OnlyTouched(os) && Shaped(old(os.cache)) && Shaped(os.cache) && SameBytes(old(os.cache), os.cache)
      ensures spaces == old(spaces) && objs == old(objs) && IsByteExpr(e)
      ensures forall a: Assignment :: offset < |old(Contents(os.cache, a))| && Eval(e, a) == old(Contents(os.cache, a))[offset]
    {
      hide CacheInv, Shaped, ByteAt, BindingsOk, Eval;
      InvShaped(os.cache);
      e := os.Read8(offset);
      InvShaped(os.cache);
      forall i: nat, a: Assignment | i < os.mo.size ensures ByteAt(os.cache, i, a) == ByteAt(old(os.cache), i, a) {
        assert os.ByteValue(i, a) == old(os.ByteValue(i, a));
      }
    }

    method ReadObjectSymbolic(os: ObjectState, index: Expr) returns (e: Expr)
      requires Valid() && os in objs && IsIndex(index)
      modifies os.Repr
      ensures OnlyTouched(os) && Shaped(old(os.cache)) && Shaped(os.cache) && SameBytes(old(os.cache), os.cache)
      ensures spaces == old(spaces) && objs == old(objs) && IsByteExpr(e)
      ensures forall a: Assignment :: EvalIndex(index, a) < |old(Contents(os.cache, a))| ==>
        Eval(e, a) == old(Contents(os.cache, a))[EvalIndex(index, a)]
    {
      hide CacheInv, Shaped, ByteAt, BindingsOk, Eval;
      InvShaped(os.cache);
      e := os.Read8Symbolic(index);
      InvShaped(os.cache);
      forall i: nat, a: Assignment | i < os.mo.size ensures ByteAt(os.cache, i, a) == ByteAt(old(os.cache), i, a) {
        assert os.ByteValue(i, a) == old(os.ByteValue(i, a));
      }
    }

    lemma PlainAt(k: nat, mo: MemoryObject, a: Assignment)
      requires Valid() && k < |spaces| && mo in spaces[k].objects
      ensures mo in PlainOf(k, a) && PlainOf(k, a)[mo] == Contents(spaces[k].objects[mo].cache, a)
      ensures |PlainOf(k, a)[mo]| == mo.size
    {
      InObjs(k, mo);
      InvShaped(spaces[k].objects[mo].cache);
    }

    /** A read may flush the caches of an object that other spaces share. */
    method ReadByte(k: nat, mo: MemoryObject, offset: nat) returns (e: Expr)
      requires Valid() && Binds(k, mo) && offset < mo.size
      modifies Footprint()
      ensures Valid() && spaces == old(spaces) && Grew() && IsByteExpr(e)
      ensures KeepsFrozen()
      ensures forall a: Assignment ::
        Memories(a) == old(Memories(a)) && Answers(Some(e), PlainWorldRead(Memories(a), Command(k, Op.ReadByte(mo, offset)), a), a)
    {
      hide ObjectsOk, SpacesOk, BindingsOk, OnlyTouched, FrozenShared, PlainOf, Bound, Contents, Shaped, SameBytes,
        Eval, IsByteExpr;
      InObjs(k, mo);
      var os := spaces[k].objects[mo];
      forall a: Assignment ensures mo in PlainOf(k, a) && PlainOf(k, a)[mo] == Contents(os.cache, a) {
        PlainAt(k, mo, a);
      }
      e := ReadObject(os, offset);
      TouchedKeepsValid(os);
      TouchedGrew(os);
      forall a: Assignment ensures Memories(a) == old(Memories(a)) {
        forall i: nat | i < |spaces| ensures PlainOf(i, a) == old(PlainOf(i, a)) {
          TouchedSameBytes(os, i, a);
        }
      }
    }

    method ReadSymbolic(k: nat, mo: MemoryObject, index: Expr) returns (e: Expr)
      requires Valid() && Binds(k, mo) && IsIndex(index)
      modifies Footprint()
      ensures Valid() && spaces == old(spaces) && Grew() && IsByteExpr(e)
      ensures KeepsFrozen()
      ensures forall a: Assignment ::
        Memories(a) == old(Memories(a)) && Answers(Some(e), PlainWorldRead(Memories(a), Command(k, Op.ReadSymbolic(mo, index)), a), a)
    {
      hide ObjectsOk, SpacesOk, BindingsOk, OnlyTouched, FrozenShared, PlainOf, Bound, Contents, Shaped, SameBytes,
        Eval, IsByteExpr, IsIndex, EvalIndex;
      InObjs(k, mo);
      var os := spaces[k].objects[mo];
      forall a: Assignment ensures mo in PlainOf(k, a) && PlainOf(k, a)[mo] == Contents(os.cache, a) {
        PlainAt(k, mo, a);
      }
      e := ReadObjectSymbolic(os, index);
      TouchedKeepsValid(os);
      TouchedGrew(os);
      forall a: Assignment ensures Memories(a) == old(Memories(a)) {
        forall i: nat | i < |spaces| ensures PlainOf(i, a) == old(PlainOf(i, a)) {
          TouchedSameBytes(os, i, a);
        }
      }
    }

    // ----- whole runs

    predicate IsMutation(op: Op) { !op.ForkSpace? && !op.ReadByte? && !op.ReadSymbolic? }

    method Mutate(k: nat, op: Op)
      requires Valid() && k < |spaces| && IsMutation(op) && Enabled(spaces[k].objects.Keys, frozen, op)
      modifies Footprint()
      ensures Valid() && spaces == old(spaces) && Grew()
      ensures !SetsUp(frozen, op) ==> KeepsFrozen()
      ensures forall a: Assignment :: Memories(a) == PlainWorldStep(old(Memories(a)), frozen, Command(k, op), a)
    {
      hide Valid, FrozenShared, Pow2, InitialContents, Written, EvalIndex, EvalByte, IsIndex, IsByteExpr;
      match op
      case Allocate(mo) => Allocate(k, mo, None);
      case AllocateSymbolic(mo, arr) => Allocate(k, mo, Some(arr));
      case Free(mo) => Free(k, mo);
      case WriteByte(mo, offset, v) => WriteByte(k, mo, offset, v);
      case WriteSymbolic(mo, index, v) => WriteSymbolic(k, mo, index, v);
    }

    method Query(k: nat, op: Op) returns (e: Expr)
      requires Valid() && k < |spaces| && (op.ReadByte? || op.ReadSymbolic?) && Enabled(spaces[k].objects.Keys, frozen, op)
      modifies Footprint()
      ensures Valid() && spaces == old(spaces) && Grew()
      ensures KeepsFrozen()
      ensures forall a: Assignment ::
        Memories(a) == old(Memories(a)) && Answers(Some(e), PlainWorldRead(Memories(a), Command(k, op), a), a)
    {
      hide Valid, FrozenShared, EvalIndex, IsIndex, WellTyped, Eval, Width;
      match op
      case ReadByte(mo, offset) => e := ReadByte(k, mo, offset);
      case ReadSymbolic(mo, index) => e := ReadSymbolic(k, mo, index);
    }

    /** One step of the program; operations that are not enabled do nothing. */
    method Step(c: Command) returns (e: Option<Expr>)
      requires Valid()
      modifies Footprint()
      ensures Valid() && Grew()
      ensures !SetsUp(frozen, c.op) ==> KeepsFrozen()
      ensures forall a: Assignment ::
        Memories(a) == PlainWorldStep(old(Memories(a)), frozen, c, a) && Answers(e, PlainWorldRead(old(Memories(a)), c, a), a)
    {
      hide Valid, FrozenShared, PlainStep, PlainRead, Enabled, Memories;
      e := None;
      if c.space < |spaces| {
        forall a: Assignment {
          Idle(Memories(a)[c.space], frozen, c.op, a);
        }
        if c.op.ForkSpace? {
          ForkSpace(c.space);
        } else if Enabled(spaces[c.space].objects.Keys, frozen, c.op) {
          if IsMutation(c.op) {
            Mutate(c.space, c.op);
          } else {
            var r := Query(c.space, c.op);
            e := Some(r);
          }
        }
      }
    }

    /** Every run over any number of forked spaces behaves as if each space had its own memory: no write is seen
        elsewhere, none is lost, and every read gives what that memory holds. */
    method Run(cs: seq<Command>) returns (es: seq<Option<Expr>>)
      requires Valid()
      modifies Footprint()
      ensures Valid() && |es| == |cs|
      ensures NoSetUp(frozen, cs) ==> KeepsFrozen()
      ensures forall a: Assignment ::
        Memories(a) == PlainRun(old(Memories(a)), frozen, cs, a) && AllAnswered(es, old(Memories(a)), frozen, cs, a)
    {
      hide Valid, FrozenShared, PlainWorldStep, PlainWorldRead, Memories, Answers, Footprint, SetsUp, AllAnswered,
        PlainRun, NoSetUp;
      es := [];
      forall a: Assignment
        ensures Memories(a) == PlainRun(Memories(a), frozen, cs[..0], a) && AllAnswered([], Memories(a), frozen, cs, a)
      {
        NothingRun(Memories(a), frozen, cs, a);
      }
      while |es| < |cs|
        invariant |es| <= |cs| && Valid() && Grew() && (NoSetUp(frozen, cs) ==> KeepsFrozen())
        invariant forall a: Assignment :: Memories(a) == PlainRun(old(Memories(a)), frozen, cs[..|es|], a)
        invariant forall a: Assignment :: AllAnswered(es, old(Memories(a)), frozen, cs, a)
      {
        var e := Step(cs[|es|]);
        forall a: Assignment
          ensures Memories(a) == PlainRun(old(Memories(a)), frozen, cs[..|es| + 1], a)
          ensures AllAnswered(es + [e], old(Memories(a)), frozen, cs, a)
        {
          OneMoreRun(es, e, old(Memories(a)), frozen, cs, a);
        }
        NoSetUpAt(frozen, cs, |es|);
        es := es + [e];
      }
      assert cs[..|cs|] == cs;
    }
  }
}
