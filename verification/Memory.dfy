/** KLEE's ObjectState: a memory object whose bytes are cached in three places, updated in place.
    Every operation is specified by what it does to the bytes, under every assignment. */
module Memory {
  import opened Wrappers
  import opened Words
  import opened Expressions
  import opened ExprBuilder
  import opened BitArrays
  import opened ObjectCache

  /** Two memory objects are the same only if they are the same allocation. */
  datatype MemoryObject = MemoryObject(id: nat, address: nat, size: nat)

  class ObjectState {
    const mo: MemoryObject
    const concreteStore: array<Byte>
    var copyOnWriteOwner: nat
    var readOnly: bool
    var concreteMask: BitArray?
    var flushMask: BitArray?
    var knownSymbolics: array?<Option<Expr>>
    var root: Option<Array>
    var head: UpdateNode
    /** The cache as one value. */
    ghost var cache: Cache
    ghost var Repr: set<object>

    static predicate Different(x: object, y: object?) { x != y }

    /** A mask belongs to this object and shares no memory with the arrays of bytes and expressions. */
    ghost predicate Mine(bits: array?<bv32>)
      reads this
    {
      bits != null ==>
        bits in Repr && bits.Length * WORD >= mo.size && Different(bits, concreteStore) && Different(bits, knownSymbolics)
    }

    /** The fields fit together and `cache` describes them; says nothing about the cache invariants. */
    ghost predicate Allocated()
      reads this, Repr
    {
      && this in Repr && concreteStore in Repr && concreteStore.Length == mo.size
      && (knownSymbolics != null ==> knownSymbolics in Repr && knownSymbolics.Length == mo.size)
      && Different(concreteStore, knownSymbolics)
      && Mine(if concreteMask != null then concreteMask.bits else null)
      && Mine(if flushMask != null then flushMask.bits else null)
      && (concreteMask != null && flushMask != null ==> concreteMask.bits != flushMask.bits)
      && cache.store == concreteStore[..] && cache.root == root && cache.head == head
      && |cache.concrete| == |cache.flushed| == |cache.known| == mo.size
      && (forall i: nat :: i < mo.size ==> cache.concrete[i] == (concreteMask == null || concreteMask.Get(i)))
      && (forall i: nat :: i < mo.size ==> cache.flushed[i] == (flushMask != null && !flushMask.Get(i)))
      && (forall i: nat :: i < mo.size ==> cache.known[i] == if knownSymbolics == null then None else knownSymbolics[i])
    }

    /** An object without masks is all concrete. */
    ghost predicate Bare()
      reads this, Repr
    {
      && Repr == {this, concreteStore} && concreteStore.Length == mo.size
      && concreteMask == null && flushMask == null && knownSymbolics == null
      && cache == Cache(concreteStore[..], seq(mo.size, _ => true), seq(mo.size, _ => false), seq(mo.size, _ => None), root, head)
    }

    lemma BareIsAllocated()
      requires Bare()
      ensures Allocated()
    {
    }

    predicate IsByteConcrete(i: nat)
      requires Allocated() && i < mo.size
      reads this, Repr
      ensures IsByteConcrete(i) == cache.concrete[i]
    {
      concreteMask == null || concreteMask.Get(i)
    }

    predicate IsByteFlushed(i: nat)
      requires Allocated() && i < mo.size
      reads this, Repr
      ensures IsByteFlushed(i) == cache.flushed[i]
    {
      flushMask != null && !flushMask.Get(i)
    }

    predicate IsByteKnownSymbolic(i: nat)
      requires Allocated() && i < mo.size
      reads this, Repr
      ensures IsByteKnownSymbolic(i) == cache.known[i].Some?
    {
      knownSymbolics != null && knownSymbolics[i].Some?
    }

    ghost predicate Valid()
      reads this, Repr
    {
      Allocated() && CacheInv(cache)
    }

    /** The value of byte `i` under the assignment `a`. */
    ghost function ByteValue(i: nat, a: Assignment): Byte
      requires Valid() && i < mo.size
      reads this, Repr
    {
      ByteAt(cache, i, a)
    }

    /** What no operation on the bytes touches. */
    twostate predicate Kept()
      reads this
    {
      readOnly == old(readOnly) && copyOnWriteOwner == old(copyOnWriteOwner) && fresh(Repr - old(Repr))
    }

    // ----- construction

    /** A new object with concrete contents, all zero. */
    constructor (mo: MemoryObject)
      requires mo.size < Pow2(INT32)
      ensures Valid() && fresh(Repr) && this.mo == mo && copyOnWriteOwner == 0 && !readOnly
      ensures forall i: nat, a: Assignment :: i < mo.size ==> ByteValue(i, a) == ZERO_BYTE
    {
      hide Pow2, Shaped, CacheInv, ByteAt, Allocated, InitialByte;
      this.mo := mo;
      concreteStore := new Byte[mo.size](_ => ZERO_BYTE);
      copyOnWriteOwner, readOnly := 0, false;
      concreteMask, flushMask, knownSymbolics := null, null, null;
      root, head := None, NoUpdate;
      new;
      Repr := {this, concreteStore};
      cache := Cache(concreteStore[..], seq(mo.size, _ => true), seq(mo.size, _ => false), seq(mo.size, _ => None), None, NoUpdate);
      BareIsAllocated();
      FreshConcrete(cache);
    }

    /** A new object whose contents are those of `array`. */
    constructor Symbolic(mo: MemoryObject, arr: Array)
      requires mo.size < Pow2(INT32)
      requires arr.IsConstantArray() ==> |arr.constantValues| == arr.size
      ensures Valid() && fresh(Repr) && this.mo == mo && copyOnWriteOwner == 0 && !readOnly
      ensures forall i: nat, a: Assignment :: i < mo.size ==> ByteValue(i, a) == InitialByte(arr, i, a)
    {
      hide Pow2, Shaped, CacheInv, ByteAt, Allocated, InitialByte;
      this.mo := mo;
      concreteStore := new Byte[mo.size](_ => ZERO_BYTE);
      copyOnWriteOwner, readOnly := 0, false;
      concreteMask, flushMask, knownSymbolics := null, null, null;
      root, head := Some(arr), NoUpdate;
      new;
      Repr := {this, concreteStore};
      cache := Cache(concreteStore[..], seq(mo.size, _ => true), seq(mo.size, _ => false), seq(mo.size, _ => None), Some(arr), NoUpdate);
      BareIsAllocated();
      MakeSymbolic();
      FreshSymbolic(cache);
    }

    /** A private copy; it starts without an owner. */
    constructor Copy(os: ObjectState)
      requires os.Valid() && !os.readOnly
      ensures Valid() && fresh(Repr) && mo == os.mo && copyOnWriteOwner == 0 && !readOnly
      ensures cache == os.cache
      ensures forall i: nat, a: Assignment :: i < mo.size ==> ByteValue(i, a) == os.ByteValue(i, a)
    {
      hide Pow2, Shaped, CacheInv, ByteAt, Allocated;
      SizeOfStore(os);
      mo := os.mo;
      concreteStore := new Byte[os.mo.size](i requires 0 <= i < os.mo.size == os.concreteStore.Length reads os.concreteStore => os.concreteStore[i]);
      copyOnWriteOwner, readOnly := 0, false;
      concreteMask, flushMask, knownSymbolics := null, null, null;
      root, head := os.root, os.head;
      new;
      Repr := {this, concreteStore};
      assert concreteStore[..] == os.concreteStore[..];
      CopyMasks(os);
      CopyKnownSymbolics(os);
      cache := os.cache;
      CopyIsAllocated(os);
    }

    static lemma SizeOfStore(os: ObjectState)
      requires os.Allocated()
      ensures os.concreteStore.Length == os.mo.size
    {
    }

    /** A mask and its copy agree on the first `n` flags. */
    static ghost predicate SameFlags(mask: BitArray?, from: BitArray?, n: nat)
      reads if mask != null then {mask.bits} else {}
      reads if from != null then {from.bits} else {}
    {
      if mask == null || from == null then mask == from
      else mask.Capacity() >= n && from.Capacity() >= n && forall i: nat :: i < n ==> mask.Get(i) == from.Get(i)
    }

    method CopyMasks(os: ObjectState)
      requires os.Allocated() && os.mo == mo && os != this && concreteMask == null && flushMask == null
      modifies this`concreteMask, this`flushMask, this`Repr
      ensures SameFlags(concreteMask, os.concreteMask, mo.size) && SameFlags(flushMask, os.flushMask, mo.size)
      ensures concreteMask != null ==> fresh(concreteMask.bits) && concreteMask.bits in Repr
      ensures flushMask != null ==> fresh(flushMask.bits) && flushMask.bits in Repr
      ensures concreteMask != null && flushMask != null ==> concreteMask.bits != flushMask.bits
      ensures old(Repr) <= Repr && fresh(Repr - old(Repr))
    {
      if os.concreteMask != null {
        concreteMask := new BitArray.Copy(os.concreteMask, mo.size);
        Repr := Repr + {concreteMask.bits};
      }
      if os.flushMask != null {
        flushMask := new BitArray.Copy(os.flushMask, mo.size);
        Repr := Repr + {flushMask.bits};
      }
    }

    method CopyKnownSymbolics(os: ObjectState)
      requires os.Allocated() && os.mo == mo && os != this && knownSymbolics == null
      modifies this`knownSymbolics, this`Repr
      ensures (knownSymbolics == null) == (os.knownSymbolics == null)
      ensures knownSymbolics != null ==> fresh(knownSymbolics) && knownSymbolics in Repr
      ensures knownSymbolics != null ==> knownSymbolics.Length == mo.size && knownSymbolics[..] == os.knownSymbolics[..]
      ensures old(Repr) <= Repr && fresh(Repr - old(Repr))
    {
      if os.knownSymbolics != null {
        knownSymbolics := new Option<Expr>[mo.size](_ => None);
        Repr := Repr + {knownSymbolics};
        var i := 0;
        while i < mo.size
          invariant 0 <= i <= mo.size && knownSymbolics != null && fresh(knownSymbolics) && knownSymbolics.Length == mo.size
          invariant Repr == old(Repr) + {knownSymbolics}
          invariant os.knownSymbolics != null && os.knownSymbolics.Length == mo.size &&
            knownSymbolics[..i] == os.knownSymbolics[..i]
          modifies knownSymbolics
        {
          knownSymbolics[i] := os.knownSymbolics[i];
          i := i + 1;
        }
      }
    }

    /** An object with the same flags, bytes and expressions as an allocated one, in its own memory. */
    lemma CopyIsAllocated(os: ObjectState)
      requires os.Allocated() && os.mo == mo && cache == os.cache && root == os.root && head == os.head
      requires this in Repr && concreteStore in Repr && concreteStore[..] == os.concreteStore[..]
      requires SameFlags(concreteMask, os.concreteMask, mo.size) && SameFlags(flushMask, os.flushMask, mo.size)
      requires concreteMask != null ==>
        concreteMask.bits in Repr && Different(concreteMask.bits, concreteStore) &&
        Different(concreteMask.bits, knownSymbolics)
      requires flushMask != null ==>
        flushMask.bits in Repr && Different(flushMask.bits, concreteStore) && Different(flushMask.bits, knownSymbolics)
      requires concreteMask != null && flushMask != null ==> concreteMask.bits != flushMask.bits
      requires (knownSymbolics == null) == (os.knownSymbolics == null) && Different(concreteStore, knownSymbolics)
      requires knownSymbolics != null ==> knownSymbolics in Repr && knownSymbolics[..] == os.knownSymbolics[..]
      ensures Allocated()
    {
    }

    method MakeSymbolic()
      requires Allocated() && head == NoUpdate
      modifies Repr
      ensures Allocated() && Kept() && AllFlushed(cache)
      ensures cache.head == NoUpdate && cache.root == old(cache.root) && |cache.flushed| == |cache.store| == mo.size
    {
      var i := 0;
      while i < mo.size
        invariant 0 <= i <= mo.size && Allocated() && Kept()
        invariant forall j :: 0 <= j < i ==> cache.flushed[j] && !cache.concrete[j] && cache.known[j].None?
        invariant cache.head == NoUpdate && cache.root == old(cache.root) && |cache.flushed| == |cache.store| == mo.size
      {
        hide Allocated;
        MarkByteSymbolic(i);
        SetKnownSymbolic(i, None);
        MarkByteFlushed(i);
        i := i + 1;
      }
    }

    method SetReadOnly(readOnly: bool)
      requires Valid()
      modifies this`readOnly
      ensures Valid() && this.readOnly == readOnly
      ensures forall i: nat, a: Assignment :: i < mo.size ==> ByteValue(i, a) == old(ByteValue(i, a))
    {
      hide CacheInv, ByteAt;
      this.readOnly := readOnly;
    }

    /** Drops both masks and the symbolic cache, which makes every byte concrete and unflushed. */
    method MakeConcrete()
      requires Allocated()
      modifies this
      ensures Allocated() && Kept() && Repr == old(Repr)
      ensures cache == old(cache).(concrete := seq(mo.size, _ => true), flushed := seq(mo.size, _ => false), known := seq(mo.size, _ => None))
    {
      concreteMask, flushMask, knownSymbolics := null, null, null;
      cache := cache.(concrete := seq(mo.size, _ => true), flushed := seq(mo.size, _ => false), known := seq(mo.size, _ => None));
    }

    method InitializeTo(value: Byte)
      requires Valid()
      modifies Repr
      ensures Valid() && Kept()
      ensures forall i: nat, a: Assignment :: i < mo.size ==> ByteValue(i, a) == value
    {
      hide Pow2, CacheInv, ByteAt;
      InvShaped(cache);
      MakeConcrete();
      var i := 0;
      while i < mo.size
        invariant 0 <= i <= mo.size && Allocated() && Kept() && |cache.store| == mo.size
        invariant cache == old(cache).(store := cache.store, concrete := seq(mo.size, _ => true), flushed := seq(mo.size, _ => false), known := seq(mo.size, _ => None))
        invariant forall j :: 0 <= j < i ==> cache.store[j] == value
      {
        hide Allocated;
        StoreByte(i, value);
        i := i + 1;
      }
      AllConcrete(cache);
    }

    // ----- marking single bytes

    method MarkByteConcrete(k: nat)
      requires Allocated() && k < mo.size
      modifies Repr
      ensures Allocated() && Kept()
      ensures cache == old(cache).(concrete := old(cache.concrete)[k := true])
    {
      if concreteMask != null {
        concreteMask.Set(k);
      }
      cache := cache.(concrete := cache.concrete[k := true]);
    }

    method MarkByteSymbolic(k: nat)
      requires Allocated() && k < mo.size
      modifies Repr
      ensures Allocated() && Kept() && flushMask == old(flushMask)
      ensures cache == old(cache).(concrete := old(cache.concrete)[k := false])
    {
      if concreteMask == null {
        concreteMask := new BitArray(mo.size, true);
        Repr := Repr + {concreteMask.bits};
      }
      concreteMask.Unset(k);
      cache := cache.(concrete := cache.concrete[k := false]);
    }

    method MarkByteUnflushed(k: nat)
      requires Allocated() && k < mo.size
      modifies Repr
      ensures Allocated() && Kept()
      ensures cache == old(cache).(flushed := old(cache.flushed)[k := false])
    {
      if flushMask != null {
        flushMask.Set(k);
      }
      cache := cache.(flushed := cache.flushed[k := false]);
    }

    /** Without a mask this marks every byte: the new mask starts with all bits clear. */
    method MarkByteFlushed(k: nat)
      requires Allocated() && k < mo.size
      modifies Repr
      ensures Allocated() && Kept() && flushMask != null
      ensures old(flushMask) != null ==> cache == old(cache).(flushed := old(cache.flushed)[k := true])
      ensures old(flushMask) == null ==> cache == old(cache).(flushed := seq(mo.size, _ => true))
    {
      if flushMask == null {
        flushMask := new BitArray(mo.size, false);
        Repr := Repr + {flushMask.bits};
        cache := cache.(flushed := seq(mo.size, _ => true));
      } else {
        flushMask.Unset(k);
        cache := cache.(flushed := cache.flushed[k := true]);
      }
    }

    method SetKnownSymbolic(k: nat, value: Option<Expr>)
      requires Allocated() && k < mo.size
      modifies Repr
      ensures Allocated() && Kept() && flushMask == old(flushMask)
      ensures cache == old(cache).(known := old(cache.known)[k := value])
    {
      if knownSymbolics != null {
        knownSymbolics[k] := value;
      } else if value.Some? {
        knownSymbolics := new Option<Expr>[mo.size](_ => None);
        Repr := Repr + {knownSymbolics};
        knownSymbolics[k] := value;
      }
      cache := cache.(known := cache.known[k := value]);
    }

    method StoreByte(k: nat, value: Byte)
      requires Allocated() && k < mo.size
      modifies Repr
      ensures Allocated() && Kept()
      ensures cache == old(cache).(store := old(cache.store)[k := value])
    {
      concreteStore[k] := value;
      cache := cache.(store := cache.store[k := value]);
    }

    /** flushMask = new BitArray(size, true), if there is none: nothing becomes flushed. */
    method EnsureFlushMask()
      requires Allocated()
      modifies Repr
      ensures Allocated() && Kept() && flushMask != null
      ensures cache == old(cache)
    {
      if flushMask == null {
        flushMask := new BitArray(mo.size, true);
        Repr := Repr + {flushMask.bits};
      }
    }

    /** updates.extend(index, value) */
    method ExtendUpdates(index: Expr, value: Expr)
      requires Allocated()
      modifies Repr
      ensures Allocated() && Kept() && flushMask == old(flushMask)
      ensures cache == old(cache).(head := Update(old(cache.head), index, value))
    {
      head := Update(head, index, value);
      cache := cache.(head := head);
    }

    // ----- single-byte writes

    method Write8Concrete(k: nat, value: Byte)
      requires Valid() && k < mo.size
      modifies Repr
      ensures Valid() && Kept()
      ensures forall i: nat, a: Assignment :: i < mo.size ==> ByteValue(i, a) == if i == k then value else old(ByteValue(i, a))
    {
      InvShaped(cache);
      WriteConcreteOk(cache, k, value);
      hide CacheInv, ByteAt, Shaped, Pow2, Allocated;
      StoreByte(k, value);
      SetKnownSymbolic(k, None);
      MarkByteConcrete(k);
      MarkByteUnflushed(k);
    }

    method Write8(k: nat, value: Expr)
      requires Valid() && k < mo.size
      requires WellTyped(value) && Width(value) == INT8
      modifies Repr
      ensures Valid() && Kept()
      ensures forall i: nat, a: Assignment :: i < mo.size ==>
        ByteValue(i, a) == if i == k then Eval(value, a) else old(ByteValue(i, a))
    {
      InvShaped(cache);
      WriteKnownOk(cache, k, value);
      hide CacheInv, ByteAt, Shaped, Pow2, Allocated;
      if value.Const? {
        Write8Concrete(k, value.bits);
      } else {
        SetKnownSymbolic(k, Some(value));
        MarkByteSymbolic(k);
        MarkByteUnflushed(k);
      }
    }

    // ----- flushing

    /** The expression a cached byte is flushed as. */
    method CachedByte(k: nat) returns (e: Expr)
      requires Valid() && k < mo.size && !IsByteFlushed(k)
      ensures Shaped(cache) && CacheInv(cache) && !cache.flushed[k] && (cache.concrete[k] || cache.known[k].Some?)
      ensures e == CachedExpr(cache, k)
    {
      hide ByteAt, Pow2;
      InvShaped(cache);
      if IsByteConcrete(k) {
        e := Const(concreteStore[k]);
      } else {
        assert IsByteKnownSymbolic(k);
        e := knownSymbolics[k].value;
      }
    }

    /** updates.extend with the cached byte, which is then flushed */
    method FlushCached(k: nat)
      requires Valid() && k < mo.size && !IsByteFlushed(k) && flushMask != null
      modifies Repr
      ensures Allocated() && Kept() && flushMask != null
      ensures Shaped(old(cache)) && !old(cache.flushed)[k] && (old(cache.concrete)[k] || old(cache.known)[k].Some?)
      ensures cache == FlushForRead(old(cache), k)
    {
      hide CacheInv, Shaped, Pow2, Allocated, CachedExpr, ConstOf;
      var e := CachedByte(k);
      ExtendUpdates(ConstOf(k, INT32), e);
      MarkByteFlushed(k);
    }

    method FlushByteForRead(k: nat)
      requires Valid() && k < mo.size && flushMask != null
      modifies Repr
      ensures Valid() && Kept() && flushMask != null
      ensures Shaped(old(cache)) && CacheInv(old(cache)) && cache == FlushForRead(old(cache), k)
    {
      InvShaped(cache);
      FlushForReadKeeps(cache, k);
      hide CacheInv, ByteAt, Shaped, Pow2, Allocated, CachedExpr;
      if !IsByteFlushed(k) {
        FlushCached(k);
      }
    }

    method FlushByteForWrite(k: nat)
      requires Valid() && k < mo.size && flushMask != null
      modifies Repr
      ensures Valid() && Kept() && flushMask != null
      ensures Shaped(old(cache)) && CacheInv(old(cache)) && cache == FlushForWrite(old(cache), k)
    {
      hide ByteAt, CacheInv, Pow2, SameBytes, CachedExpr, ConstOf;
      InvShaped(cache);
      InvExclusive(cache);
      FlushForWriteKeeps(cache, k);
      ghost var m := FlushForRead(cache, k);
      assert m.known == cache.known && m.concrete == cache.concrete && (cache.flushed[k] ==> m == cache);
      hide Shaped, Allocated, FlushForRead;
      if !IsByteFlushed(k) {
        FlushCached(k);
      }
      // flushed bytes that are written over still lose their cached value
      DropCached(k);
    }

    method DropCached(k: nat)
      requires Allocated() && k < mo.size
      requires cache.known[k].Some? ==> !cache.concrete[k]
      modifies Repr
      ensures Allocated() && Kept() && flushMask == old(flushMask)
      ensures cache == old(cache).(concrete := old(cache.concrete)[k := false], known := old(cache.known)[k := None])
    {
      if IsByteConcrete(k) {
        MarkByteSymbolic(k);
      } else if IsByteKnownSymbolic(k) {
        SetKnownSymbolic(k, None);
      }
      assert cache.concrete == old(cache.concrete)[k := false];
      assert cache.known == old(cache.known)[k := None];
    }

    method FlushRangeForRead(base: nat, count: nat)
      requires Valid() && base + count <= mo.size
      modifies Repr
      ensures Valid() && Kept() && cache.root == old(cache.root)
      ensures forall i: nat :: base <= i < base + count ==> cache.flushed[i]
      ensures forall i: nat, a: Assignment :: i < mo.size ==> ByteValue(i, a) == old(ByteValue(i, a))
    {
      hide CacheInv, ByteAt, Shaped, Pow2, ListByte;
      ghost var c := cache;
      InvShaped(c);
      EnsureFlushMask();
      var offset := base;
      while offset < base + count
        invariant base <= offset <= base + count
        invariant Valid() && Kept() && flushMask != null
        invariant Shaped(cache) && SameBytes(c, cache) && cache.root == c.root
        invariant forall i: nat :: base <= i < offset ==> cache.flushed[i]
      {
        ghost var d := cache;
        FlushByteForRead(offset);
        FlushForReadKeeps(d, offset);
        InvShaped(cache);
        SameBytesTrans(c, d, cache);
        offset := offset + 1;
      }
    }

    method FlushRangeForWrite(base: nat, count: nat)
      requires Valid() && base + count <= mo.size
      modifies Repr
      ensures Valid() && Kept() && cache.root == old(cache.root)
      ensures forall i: nat :: base <= i < base + count ==> cache.flushed[i] && !cache.concrete[i] && cache.known[i].None?
      ensures forall i: nat, a: Assignment :: i < mo.size ==> ByteValue(i, a) == old(ByteValue(i, a))
    {
      hide CacheInv, ByteAt, Shaped, Pow2, ListByte;
      ghost var c := cache;
      InvShaped(c);
      EnsureFlushMask();
      var offset := base;
      while offset < base + count
        invariant base <= offset <= base + count
        invariant Valid() && Kept() && flushMask != null
        invariant Shaped(cache) && SameBytes(c, cache) && cache.root == c.root
        invariant forall i: nat :: base <= i < offset ==> cache.flushed[i] && !cache.concrete[i] && cache.known[i].None?
      {
        ghost var d := cache;
        FlushByteForWrite(offset);
        FlushForWriteKeeps(d, offset);
        InvShaped(cache);
        SameBytesTrans(c, d, cache);
        offset := offset + 1;
      }
    }

    // ----- reading through the update list

    /** The writes of a list, oldest first. */
    static method CollectWrites(u: UpdateNode) returns (writes: seq<Write>)
      ensures writes == Writes(u)
    {
      var i := Size(u);
      var ws := new Write[i](_ => Write(Const([]), Const([])));
      var un := u;
      while i != 0
        invariant i == Size(un) <= ws.Length
        invariant Writes(u) == Writes(un) + ws[i..]
      {
        i := i - 1;
        ws[i] := Write(un.idx, un.value);
        un := un.next;
      }
      writes := ws[..];
    }

    /** The oldest constant writes, pulled into the contents of a constant array. */
    static method PullConstants(writes: seq<Write>, size: nat) returns (contents: array<Byte>, begin: nat)
      requires WritesOk(writes, size)
      ensures fresh(contents) && contents.Length == size && begin <= |writes|
      ensures forall i: nat, a: Assignment :: i < size ==> Replay(writes[..begin], size, i, ZERO_BYTE, a) == contents[i]
    {
      hide Pow2, Eval, EvalRead, ToNat, FromInt, Replay;
      contents := new Byte[size](_ => ZERO_BYTE);
      begin := 0;
      forall i: nat, a: Assignment | i < size ensures Replay(writes[..0], size, i, ZERO_BYTE, a) == ZERO_BYTE {
        ReplayNone(writes[..0], size, i, a);
      }
      while begin < |writes| && writes[begin].index.Const? && writes[begin].value.Const?
        invariant 0 <= begin <= |writes|
        invariant contents.Length == size && fresh(contents)
        invariant forall i: nat, a: Assignment :: i < size ==> Replay(writes[..begin], size, i, ZERO_BYTE, a) == contents[i]
      {
        var w := writes[begin];
        assert w.index.Const? && ToNat(w.index.bits) < size && Width(w.value) == INT8;
        ghost var was := contents[..];
        contents[ToNat(w.index.bits)] := w.value.bits;
        ghost var done := writes[..begin + 1];
        forall i: nat, a: Assignment | i < size ensures Replay(done, size, i, ZERO_BYTE, a) == contents[i] {
          assert done[..begin] == writes[..begin] && done[begin] == w;
          ReplayConst(done, size, i, a);
          assert Replay(writes[..begin], size, i, ZERO_BYTE, a) == was[i];
        }
        begin := begin + 1;
      }
    }

    /** The writes from `begin` on, laid over nothing. */
    static method ExtendAll(writes: seq<Write>, begin: nat) returns (next: UpdateNode)
      requires begin <= |writes|
      ensures next == Extended(NoUpdate, writes[begin..])
    {
      next := NoUpdate;
      var k := begin;
      while k < |writes|
        invariant begin <= k <= |writes| && next == Extended(NoUpdate, writes[begin..k])
      {
        next := Update(next, writes[k].index, writes[k].value);
        assert writes[begin..k + 1][..k - begin] == writes[begin..k];
        k := k + 1;
      }
      assert writes[begin..] == writes[begin..k];
    }

    /** The update list with its root; without one, the oldest constant writes become a constant array. */
    method GetUpdates()
      requires Valid()
      modifies Repr
      ensures Valid() && Kept() && cache.root.Some? && root == cache.root && head == cache.head
      ensures cache == old(cache).(root := cache.root, head := cache.head)
      ensures forall i: nat, a: Assignment :: i < mo.size ==> ByteValue(i, a) == old(ByteValue(i, a))
    {
      if root.Some? { return; }
      hide Pow2, CacheInv, ByteAt, Replay, Shaped;
      ghost var c := cache;
      InvShaped(c);
      var writes := CollectWrites(head);
      InvWrites(c);
      var contents, begin := PullConstants(writes, mo.size);
      var next := ExtendAll(writes, begin);
      RebuildOk(c, begin, contents[..], "const_arr");
      SetUpdates(Some(Array("const_arr", mo.size, contents[..])), next);
      InvShaped(cache);
    }

    method SetUpdates(root: Option<Array>, head: UpdateNode)
      requires Allocated()
      modifies this
      ensures Allocated() && Kept() && Repr == old(Repr)
      ensures this.root == root && this.head == head && cache == old(cache).(root := root, head := head)
    {
      this.root, this.head := root, head;
      cache := cache.(root := root, head := head);
    }

    // ----- reads and symbolic writes

    method Read8(k: nat) returns (e: Expr)
      requires Valid() && k < mo.size
      modifies Repr
      ensures Valid() && Kept() && WellTyped(e) && Width(e) == INT8
      ensures forall i: nat, a: Assignment :: i < mo.size ==> ByteValue(i, a) == old(ByteValue(i, a))
      ensures forall a: Assignment :: Eval(e, a) == old(ByteValue(k, a))
    {
      hide Pow2, CacheInv, ByteAt, Shaped, ListByte;
      InvShaped(cache);
      if IsByteConcrete(k) {
        e := Const(concreteStore[k]);
        CachedByteValue(cache, k, e);
      } else if IsByteKnownSymbolic(k) {
        e := knownSymbolics[k].value;
        CachedByteValue(cache, k, e);
      } else {
        GetUpdates();
        InvList(cache);
        e := CreateRead(root.value, head, ConstOf(k, INT32));
        ReadAtConst(cache, k);
      }
    }

    method Read8Symbolic(offset: Expr) returns (e: Expr)
      requires Valid() && WellTyped(offset) && !offset.Const? && Width(offset) == INT32
      modifies Repr
      ensures Valid() && Kept() && WellTyped(e) && Width(e) == INT8
      ensures forall i: nat, a: Assignment :: i < mo.size ==> ByteValue(i, a) == old(ByteValue(i, a))
      ensures forall a: Assignment :: ToNat(Eval(offset, a)) < mo.size ==> Eval(e, a) == old(ByteValue(ToNat(Eval(offset, a)), a))
    {
      hide Pow2, CacheInv, ByteAt, Shaped, ListByte;
      FlushRangeForRead(0, mo.size);
      GetUpdates();
      InvList(cache);
      e := CreateRead(root.value, head, CreateZExt(offset, INT32));
      ReadAtSymbolic(cache, CreateZExt(offset, INT32));
    }

    method Write8Symbolic(offset: Expr, value: Expr)
      requires Valid() && WellTyped(offset) && !offset.Const? && Width(offset) == INT32
      requires WellTyped(value) && Width(value) == INT8
      modifies Repr
      ensures Valid() && Kept()
      ensures forall i: nat, a: Assignment :: i < mo.size ==>
        ByteValue(i, a) == if i == ToNat(Eval(offset, a)) then Eval(value, a) else old(ByteValue(i, a))
    {
      hide Pow2, CacheInv, ByteAt, Shaped, ListByte;
      FlushRangeForWrite(0, mo.size);
      InvShaped(cache);
      ExtendOk(cache, CreateZExt(offset, INT32), value);
      ExtendUpdates(CreateZExt(offset, INT32), value);
    }
  }
}
