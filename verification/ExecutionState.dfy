/** KLEE's execution states: branching forks the memory, merging joins two paths into one that stands for both. */
module ExecutionStates {
  import opened Wrappers
  import opened Expressions
  import opened ExprBuilder
  import opened Constraints
  import opened Memory
  import opened CopyOnWrite

  // ----- path constraints

  lemma AndHolds(l: Expr, r: Expr, a: Assignment)
    requires IsBool(l) && IsBool(r)
    ensures IsBool(CreateAnd(l, r)) && (Holds(CreateAnd(l, r), a) <==> Holds(l, a) && Holds(r, a))
  {
    hide Eval, WellTyped, Width, CreateAnd;
    AndSound(l, r, a);
  }

  lemma OrHolds(l: Expr, r: Expr, a: Assignment)
    requires IsBool(l) && IsBool(r)
    ensures IsBool(CreateOr(l, r)) && (Holds(CreateOr(l, r), a) <==> Holds(l, a) || Holds(r, a))
  {
    hide Eval, WellTyped, Width, CreateOr;
    OrSound(l, r, a);
  }

  /** The conjunction of a set, in whatever order its members come. */
  method Conjunction(cs: set<Expr>) returns (e: Expr)
    requires forall c :: c in cs ==> IsBool(c)
    ensures IsBool(e)
    ensures forall a: Assignment :: Holds(e, a) <==> AllHold(cs, a)
  {
    e := Const([true]);
    var todo := cs;
    while todo != {}
      invariant todo <= cs && IsBool(e)
      invariant forall a: Assignment :: Holds(e, a) <==> AllHold(cs - todo, a)
      decreases |todo|
    {
      hide Eval, WellTyped, Width, CreateAnd, Holds;
      var c :| c in todo;
      assert cs - (todo - {c}) == cs - todo + {c};
      forall a: Assignment {
        AndHolds(e, c, a);
      }
      e, todo := CreateAnd(e, c), todo - {c};
    }
  }

  /** Adding constraints one by one gives their conjunction. */
  method AddConstraints(cs: set<Expr>, fuel: nat) returns (manager: ConstraintManager)
    requires forall c :: c in cs ==> IsBool(c)
    ensures fresh(manager) && manager.Valid()
    ensures forall a: Assignment :: PathHolds(manager.constraints, a) <==> AllHold(cs, a)
  {
    hide PathHolds, WellTyped, Width, Satisfied;
    manager := new ConstraintManager();
    PathHoldsNone();
    var todo := cs;
    while todo != {}
      invariant todo <= cs && fresh(manager) && manager.Valid()
      invariant forall a: Assignment :: PathHolds(manager.constraints, a) <==> AllHold(cs - todo, a)
      decreases |todo|
    {
      var c :| c in todo;
      assert cs - (todo - {c}) == cs - todo + {c};
      manager.AddConstraint(c, fuel);
      todo := todo - {c};
    }
  }

  lemma PathHoldsNone()
    ensures forall a: Assignment :: PathHolds([], a)
  {
  }

  /** What is common to both paths and one of the two rests: the union of the two paths. */
  lemma UnionOfPaths(x: set<Expr>, y: set<Expr>, a: Assignment)
    ensures AllHold(x, a) <==> AllHold(x * y, a) && AllHold(x - y, a)
    ensures AllHold(y, a) <==> AllHold(x * y, a) && AllHold(y - x, a)
  {
    hide Satisfied;
    assert x * y + (x - y) == x && x * y + (y - x) == y;
  }

  // ----- stacks

  datatype KFunction = KFunction(id: nat, numRegisters: nat)

  /** A stack frame; a register that holds nothing is None. */
  datatype Frame = Frame(caller: nat, kf: KFunction, locals: seq<Option<Expr>>, allocas: seq<MemoryObject>)

  predicate SameCode(s: seq<Frame>, t: seq<Frame>) {
    |s| == |t| && forall f :: 0 <= f < |s| ==> s[f].caller == t[f].caller && s[f].kf == t[f].kf
  }

  /** The stacks have the same height, and in every frame the same call site and function. */
  method CompareStacks(s: seq<Frame>, t: seq<Frame>) returns (same: bool)
    ensures same == SameCode(s, t)
    ensures same <==> |s| == |t| && forall f :: 0 <= f < |s| ==> s[f].caller == t[f].caller && s[f].kf == t[f].kf
  {
    var i := 0;
    while i < |s| && i < |t|
      invariant i <= |s| && i <= |t|
      invariant forall f :: 0 <= f < i ==> s[f].caller == t[f].caller && s[f].kf == t[f].kf
    {
      if s[i].caller != t[i].caller || s[i].kf != t[i].kf { return false; }
      i := i + 1;
    }
    same := i == |s| && i == |t|;
  }

  predicate FrameOk(f: Frame) {
    |f.locals| == f.kf.numRegisters && forall i :: 0 <= i < |f.locals| && f.locals[i].Some? ==> WellTyped(f.locals[i].value)
  }

  predicate FramesOk(s: seq<Frame>) {
    forall f :: 0 <= f < |s| ==> FrameOk(s[f])
  }

  predicate SameWidth(x: Option<Expr>, y: Option<Expr>) {
    x.Some? && y.Some? ==> Width(x.value) == Width(y.value)
  }

  /** The register of one instruction has one width. */
  predicate SameWidths(s: seq<Frame>, t: seq<Frame>)
    requires FramesOk(s) && FramesOk(t)
  {
    forall f, i :: 0 <= f < |s| && f < |t| && s[f].kf == t[f].kf && 0 <= i < |s[f].locals| ==>
      SameWidth(s[f].locals[i], t[f].locals[i])
  }

  /** `x` after merging with `y`: a value where the first was one, and the right one on each side. */
  ghost predicate MergedRegister(x: Option<Expr>, y: Option<Expr>, r: Option<Expr>, inA: Expr)
    requires IsBool(inA)
  {
    if x.None? || y.None? then r == x
    else r.Some? && WellTyped(r.value) && WellTyped(x.value) && WellTyped(y.value) &&
         forall a: Assignment :: Eval(r.value, a) == if Holds(inA, a) then Eval(x.value, a) else Eval(y.value, a)
  }

  method MergeRegisters(x: seq<Option<Expr>>, y: seq<Option<Expr>>, inA: Expr) returns (r: seq<Option<Expr>>)
    requires |x| == |y| && IsBool(inA)
    requires forall i :: 0 <= i < |x| ==> SameWidth(x[i], y[i])
    requires forall i :: 0 <= i < |x| ==> (x[i].Some? ==> WellTyped(x[i].value)) && (y[i].Some? ==> WellTyped(y[i].value))
    ensures |r| == |x| && forall i :: 0 <= i < |x| ==> MergedRegister(x[i], y[i], r[i], inA)
    ensures forall i :: 0 <= i < |r| && r[i].Some? ==> WellTyped(r[i].value)
  {
    hide Eval, WellTyped, Width, CreateSelect, Holds;
    r := x;
    for i := 0 to |x|
      invariant |r| == |x|
      invariant forall k :: 0 <= k < i ==> MergedRegister(x[k], y[k], r[k], inA)
      invariant forall k :: i <= k < |x| ==> r[k] == x[k]
      invariant forall k :: 0 <= k < |r| && r[k].Some? ==> WellTyped(r[k].value)
    {
      if x[i].Some? && y[i].Some? {
        assert SameWidth(x[i], y[i]);
        r := r[i := Some(CreateSelect(inA, x[i].value, y[i].value))];
        forall a: Assignment {
          SelectSound(inA, x[i].value, y[i].value, a);
        }
      }
    }
  }

  /** Two stacks with the same code merge register by register; nothing else in a frame changes. */
  ghost predicate MergedFrame(x: Frame, y: Frame, r: Frame, inA: Expr)
    requires IsBool(inA)
  {
    && r == x.(locals := r.locals) && |r.locals| == |x.locals| == |y.locals|
    && forall i :: 0 <= i < |x.locals| ==> MergedRegister(x.locals[i], y.locals[i], r.locals[i], inA)
  }

  method MergeStacks(s: seq<Frame>, t: seq<Frame>, inA: Expr) returns (r: seq<Frame>)
    requires FramesOk(s) && FramesOk(t) && SameCode(s, t) && SameWidths(s, t) && IsBool(inA)
    ensures |r| == |s| && FramesOk(r)
    ensures forall f :: 0 <= f < |s| ==> MergedFrame(s[f], t[f], r[f], inA)
  {
    hide Eval, WellTyped, Width, MergedRegister;
    r := s;
    for f := 0 to |s|
      invariant |r| == |s| && FramesOk(r)
      invariant forall g :: 0 <= g < f ==> MergedFrame(s[g], t[g], r[g], inA)
      invariant forall g :: f <= g < |s| ==> r[g] == s[g]
    {
      assert FrameOk(s[f]) && FrameOk(t[f]);
      var locals := MergeRegisters(s[f].locals, t[f].locals, inA);
      r := r[f := s[f].(locals := locals)];
    }
  }

  // ----- memories

  /** The first `n` bytes chosen between two objects, the rest from the first. */
  function Blend(p: seq<Byte>, q: seq<Byte>, n: nat, inA: bool): (r: seq<Byte>)
    requires n <= |p| == |q|
    ensures |r| == |p|
  {
    if inA then p else q[..n] + p[n..]
  }

  lemma BlendStep(p: seq<Byte>, q: seq<Byte>, n: nat, inA: bool)
    requires n < |p| == |q|
    ensures Put(Blend(p, q, n, inA), n, if inA then Blend(p, q, n, inA)[n] else q[n]) == Blend(p, q, n + 1, inA)
    ensures Blend(p, q, n, inA)[n] == p[n]
  {
  }

  /** Both memories hold `mo`, with its size. */
  ghost predicate BothHold(m: seq<Plain>, k: nat, j: nat, mo: MemoryObject) {
    k < |m| && j < |m| && k != j && mo in m[k] && mo in m[j] && |m[k][mo]| == |m[j][mo]| == mo.size
  }

  /** The object of memory `k` has its first `n` bytes chosen between it and that of memory `j`. */
  ghost function BlendObject(m: seq<Plain>, k: nat, j: nat, mo: MemoryObject, n: nat, inA: bool): seq<Plain>
    requires BothHold(m, k, j, mo) && n <= mo.size
  {
    m[k := m[k][mo := Blend(m[k][mo], m[j][mo], n, inA)]]
  }

  ghost predicate Has(w: World, k: nat, mo: MemoryObject)
    reads w, w.spaces
  {
    k < |w.spaces| && mo in w.spaces[k].objects
  }

  lemma HasBoth(w: World, k: nat, j: nat, mo: MemoryObject, a: Assignment)
    requires w.Valid() && k != j && Has(w, k, mo) && Has(w, j, mo)
    ensures BothHold(w.Memories(a), k, j, mo)
  {
    hide World.FrozenShared, World.Valid;
    w.PlainAt(k, mo, a);
    w.PlainAt(j, mo, a);
  }

  /** Every space binds what it did. */
  twostate predicate SameKeys(w: World)
    reads w, w.spaces
  {
    w.spaces == old(w.spaces) && forall s :: 0 <= s < |w.spaces| ==> w.spaces[s].objects.Keys == old(w.spaces[s].objects.Keys)
  }

  /** The world is still well formed, binds what it did and no read-only object anew, and touches only newly allocated
      memory in addition. */
  twostate predicate Evolved(w: World)
    reads *
  {
    w.Valid() && SameKeys(w) && w.Grew() && w.KeepsFrozen()
  }

  ghost predicate ReadsAs(m: seq<Plain>, k: nat, mo: MemoryObject, i: nat, e: Expr, a: Assignment) {
    IsByteExpr(e) && PlainWorldRead(m, Command(k, ReadByte(mo, i)), a) == Some(Eval(e, a))
  }

  method ReadIn(w: World, k: nat, mo: MemoryObject, i: nat) returns (e: Expr)
    requires w.Valid() && Has(w, k, mo) && i < mo.size
    modifies w.Footprint()
    ensures Evolved(w) && IsByteExpr(e)
    ensures forall a: Assignment :: w.Memories(a) == old(w.Memories(a)) && ReadsAs(w.Memories(a), k, mo, i, e, a)
  {
    hide World.FrozenShared, World.Valid, World.Footprint, World.Grew, World.KeepsFrozen, World.PlainOf, WellTyped, Width, Eval;
    forall a: Assignment {
      w.PlainAt(k, mo, a);
    }
    e := w.ReadByte(k, mo, i);
    forall s: nat | s < |w.spaces| ensures w.spaces[s].objects.Keys == old(w.spaces[s].objects.Keys) {
      assert w.Memories(map[])[s].Keys == old(w.Memories(map[])[s].Keys);
    }
  }

  method WriteIn(w: World, k: nat, mo: MemoryObject, i: nat, v: Expr)
    requires w.Valid() && Has(w, k, mo) && mo !in w.frozen && i < mo.size && IsByteExpr(v)
    modifies w.Footprint()
    ensures Evolved(w)
    ensures forall a: Assignment :: w.Memories(a) == PlainWorldStep(old(w.Memories(a)), w.frozen, Command(k, WriteByte(mo, i, v)), a)
  {
    hide World.FrozenShared, World.Valid, World.Footprint, World.Grew, World.KeepsFrozen, World.PlainOf,
      World.Memories, IsByteExpr, EvalByte;
    w.WriteByte(k, mo, i, v);
    forall s: nat | s < |w.spaces| ensures w.spaces[s].objects.Keys == old(w.spaces[s].objects.Keys) {
      assert w.Memories(map[])[s].Keys == old(w.Memories(map[])[s].Keys);
    }
  }

  /** `n` is `m` with the first `i` bytes of `mo` in memory `k` merged with those in memory `j`. */
  ghost predicate Blended(m: seq<Plain>, n: seq<Plain>, k: nat, j: nat, mo: MemoryObject, i: nat, inA: bool) {
    BothHold(m, k, j, mo) && i <= mo.size && n == BlendObject(m, k, j, mo, i, inA)
  }

  /** Writing the right byte continues the blend. */
  lemma BlendStepOk(m: seq<Plain>, n: seq<Plain>, frozen: set<MemoryObject>, k: nat, j: nat, mo: MemoryObject, i: nat,
      inA: bool, av: Expr, bv: Expr, v: Expr, a: Assignment)
    requires Blended(m, n, k, j, mo, i, inA) && i < mo.size && mo !in frozen && WellTyped(av) && WellTyped(bv) && IsByteExpr(v)
    requires ReadsAs(n, k, mo, i, av, a)
    requires ReadsAs(n, j, mo, i, bv, a)
    requires Eval(v, a) == if inA then Eval(av, a) else Eval(bv, a)
    ensures Blended(m, PlainWorldStep(n, frozen, Command(k, WriteByte(mo, i, v)), a), k, j, mo, i + 1, inA)
  {
    hide Eval, IsByteExpr, Blend;
    BlendStep(m[k][mo], m[j][mo], i, inA);
    assert n[k][mo] == Blend(m[k][mo], m[j][mo], i, inA) && n[j] == m[j];
    assert Written(n[k], mo, i, EvalByte(v, a)) == m[k][mo := Blend(m[k][mo], m[j][mo], i + 1, inA)];
  }

  /** From `n` to `o` one more byte is merged. */
  ghost predicate BlendedOne(n: seq<Plain>, o: seq<Plain>, k: nat, j: nat, mo: MemoryObject, i: nat, inA: Expr, a: Assignment) {
    forall m :: Blended(m, n, k, j, mo, i, Satisfied(inA, a)) ==> Blended(m, o, k, j, mo, i + 1, Satisfied(inA, a))
  }

  /** One byte of the merge loop: write8(i, Select(inA, read8(i), other read8(i))). */
  method MergeByte(w: World, k: nat, j: nat, mo: MemoryObject, i: nat, inA: Expr)
    requires w.Valid() && k != j && Has(w, k, mo) && Has(w, j, mo) && mo !in w.frozen && i < mo.size && IsBool(inA)
    modifies w.Footprint()
    ensures Evolved(w)
    ensures forall a: Assignment :: BlendedOne(old(w.Memories(a)), w.Memories(a), k, j, mo, i, inA, a)
  {
    hide World.FrozenShared, World.Valid, World.Footprint, Eval, WellTyped, Width, CreateSelect, Blended,
      World.Memories, PlainWorldStep, ReadsAs;
    var av := ReadIn(w, k, mo, i);
    var bv := ReadIn(w, j, mo, i);
    var v := CreateSelect(inA, av, bv);
    forall a: Assignment {
      SelectSound(inA, av, bv, a);
    }
    WriteIn(w, k, mo, i, v);
    forall a: Assignment ensures BlendedOne(old(w.Memories(a)), w.Memories(a), k, j, mo, i, inA, a) {
      forall m | Blended(m, old(w.Memories(a)), k, j, mo, i, Satisfied(inA, a))
        ensures Blended(m, w.Memories(a), k, j, mo, i + 1, Satisfied(inA, a))
      {
        BlendStepOk(m, old(w.Memories(a)), w.frozen, k, j, mo, i, Satisfied(inA, a), av, bv, v, a);
      }
    }
  }

  /** getWriteable for an object this state is about to merge into; nobody's memory changes. */
  method MakeOwn(w: World, k: nat, mo: MemoryObject)
    requires w.Valid() && Has(w, k, mo) && mo !in w.frozen
    modifies w.Footprint()
    ensures Evolved(w)
    ensures forall a: Assignment :: w.Memories(a) == old(w.Memories(a))
  {
    hide World.FrozenShared, World.Valid, World.Grew, World.KeepsFrozen, World.PlainOf;
    var _ := w.Own(k, mo);
    forall s: nat | s < |w.spaces| ensures w.spaces[s].objects.Keys == old(w.spaces[s].objects.Keys) {
      assert w.Memories(map[])[s].Keys == old(w.Memories(map[])[s].Keys);
    }
  }

  /** Merges an object that differs between the two states, byte by byte. */
  method MergeObject(w: World, k: nat, j: nat, mo: MemoryObject, inA: Expr)
    requires w.Valid() && k != j && Has(w, k, mo) && Has(w, j, mo) && mo !in w.frozen && IsBool(inA)
    modifies w.Footprint()
    ensures Evolved(w)
    ensures forall a: Assignment :: Blended(old(w.Memories(a)), w.Memories(a), k, j, mo, mo.size, Satisfied(inA, a))
  {
    hide World.FrozenShared, World.Valid, World.Footprint, World.Memories, IsBool, Satisfied, Blended;
    MakeOwn(w, k, mo);
    forall a: Assignment ensures Blended(w.Memories(a), w.Memories(a), k, j, mo, 0, Satisfied(inA, a)) {
      HasBoth(w, k, j, mo, a);
      BlendNone(w.Memories(a), k, j, mo, Satisfied(inA, a));
    }
    for i := 0 to mo.size
      invariant Evolved(w)
      invariant forall a: Assignment :: Blended(old(w.Memories(a)), w.Memories(a), k, j, mo, i, Satisfied(inA, a))
    {
      MergeByte(w, k, j, mo, i, inA);
    }
  }

  lemma BlendNone(m: seq<Plain>, k: nat, j: nat, mo: MemoryObject, inA: bool)
    requires BothHold(m, k, j, mo)
    ensures Blended(m, m, k, j, mo, 0, inA)
  {
    assert m[k][mo := m[k][mo]] == m[k];
    assert Blend(m[k][mo], m[j][mo], 0, inA) == m[k][mo];
  }

  /** `n` is `m` with the listed objects of memory `k` replaced by those of memory `j`, unless this path is the first one's. */
  ghost predicate Joined(m: seq<Plain>, n: seq<Plain>, k: nat, j: nat, mos: set<MemoryObject>, inA: bool) {
    && k < |m| == |n| && j < |m| && n == m[k := n[k]] && n[k].Keys == m[k].Keys && mos <= m[j].Keys
    && forall mo :: mo in n[k] ==> n[k][mo] == if mo in mos && !inA then m[j][mo] else m[k][mo]
  }

  lemma JoinNone(m: seq<Plain>, k: nat, j: nat, inA: bool)
    requires k < |m| && j < |m|
    ensures Joined(m, m, k, j, {}, inA)
  {
  }

  lemma JoinOne(m: seq<Plain>, n: seq<Plain>, o: seq<Plain>, k: nat, j: nat, mos: set<MemoryObject>, mo: MemoryObject, inA: bool)
    requires k != j && Joined(m, n, k, j, mos, inA) && Blended(n, o, k, j, mo, mo.size, inA) && mo !in mos
    ensures Joined(m, o, k, j, mos + {mo}, inA)
  {
    assert Blend(n[k][mo], n[j][mo], mo.size, inA) == if inA then n[k][mo] else n[j][mo];
  }

  method MergeObjects(w: World, k: nat, j: nat, mutated: set<MemoryObject>, inA: Expr)
    requires w.Valid() && IsBool(inA) && k < |w.spaces| && j < |w.spaces|
    requires mutated != {} ==> k != j
    requires forall mo :: mo in mutated ==> Has(w, k, mo) && Has(w, j, mo) && mo !in w.frozen
    modifies w.Footprint()
    ensures Evolved(w)
    ensures forall a: Assignment :: Joined(old(w.Memories(a)), w.Memories(a), k, j, mutated, Satisfied(inA, a))
  {
    hide World.FrozenShared, World.Valid, World.Footprint, World.Memories, IsBool, Satisfied, Blended, Joined;
    var todo := mutated;
    assert mutated - todo == {};
    forall a: Assignment ensures Joined(w.Memories(a), w.Memories(a), k, j, {}, Satisfied(inA, a)) {
      JoinNone(w.Memories(a), k, j, Satisfied(inA, a));
    }
    while todo != {}
      invariant todo <= mutated && Evolved(w)
      invariant forall a: Assignment :: Joined(old(w.Memories(a)), w.Memories(a), k, j, mutated - todo, Satisfied(inA, a))
      decreases |todo|
    {
      var mo :| mo in todo;
      label L:
      MergeObject(w, k, j, mo, inA);
      assert mutated - (todo - {mo}) == mutated - todo + {mo};
      forall a: Assignment
        ensures Joined(old(w.Memories(a)), w.Memories(a), k, j, mutated - (todo - {mo}), Satisfied(inA, a))
      {
        JoinOne(old(w.Memories(a)), old@L(w.Memories(a)), w.Memories(a), k, j, mutated - todo, mo, Satisfied(inA, a));
      }
      todo := todo - {mo};
    }
    assert mutated - todo == mutated;
  }

  /** Every register that held a value in both `s` and `t` has in `r` the value it has in `like`. */
  ghost predicate RegistersLike(r: seq<Frame>, s: seq<Frame>, t: seq<Frame>, like: seq<Frame>, a: Assignment) {
    && FramesOk(r) && FramesOk(like) && SameCode(r, s) && SameCode(s, t) && SameCode(s, like)
    && forall f: nat, i: nat :: f < |r| && i < |r[f].locals| ==> RegisterLike(r[f], s[f], t[f], like[f], i, a)
  }

  ghost predicate RegisterLike(r: Frame, s: Frame, t: Frame, like: Frame, i: nat, a: Assignment)
    requires FrameOk(r) && FrameOk(like)
  {
    && i < |r.locals| == |s.locals| == |t.locals| == |like.locals|
    && if s.locals[i].None? || t.locals[i].None? then r.locals[i] == s.locals[i]
       else r.locals[i].Some? && like.locals[i].Some? && Eval(r.locals[i].value, a) == Eval(like.locals[i].value, a)
  }

  lemma MergedFrames(s: seq<Frame>, t: seq<Frame>, r: seq<Frame>, inA: Expr)
    requires IsBool(inA) && |r| == |s| == |t| && forall f :: 0 <= f < |s| ==> MergedFrame(s[f], t[f], r[f], inA)
    ensures forall f :: 0 <= f < |r| ==> r[f] == s[f].(locals := r[f].locals)
  {
    hide MergedRegister;
  }

  /** A register with a value on both sides has that of the stack it is like, in a frame of the same call site and function. */
  lemma RegistersMean(r: seq<Frame>, s: seq<Frame>, t: seq<Frame>, like: seq<Frame>, a: Assignment, f: nat, i: nat)
    requires RegistersLike(r, s, t, like, a) && f < |r| && i < |r[f].locals|
    ensures f < |s| == |t| == |like| && i < |s[f].locals| == |t[f].locals| == |like[f].locals|
    ensures s[f].locals[i].Some? && t[f].locals[i].Some? ==>
      r[f].locals[i].Some? && like[f].locals[i].Some? &&
      WellTyped(r[f].locals[i].value) && WellTyped(like[f].locals[i].value) &&
      Eval(r[f].locals[i].value, a) == Eval(like[f].locals[i].value, a)
    ensures s[f].locals[i].None? || t[f].locals[i].None? ==> r[f].locals[i] == s[f].locals[i]
    ensures r[f].caller == like[f].caller && r[f].kf == like[f].kf
  {
    hide WellTyped, Width, Eval;
    assert RegisterLike(r[f], s[f], t[f], like[f], i, a) && FrameOk(r[f]) && FrameOk(like[f]);
  }

  lemma MergedIsLike(r: seq<Frame>, s: seq<Frame>, t: seq<Frame>, inA: Expr, a: Assignment)
    requires FramesOk(r) && FramesOk(s) && FramesOk(t) && SameCode(s, t) && |r| == |s| && IsBool(inA)
    requires forall f :: 0 <= f < |s| ==> MergedFrame(s[f], t[f], r[f], inA)
    ensures RegistersLike(r, s, t, if Holds(inA, a) then s else t, a)
  {
    hide Eval, WellTyped, Width;
    var like := if Holds(inA, a) then s else t;
    forall f: nat, i: nat | f < |r| && i < |r[f].locals|
      ensures RegisterLike(r[f], s[f], t[f], like[f], i, a)
    {
      assert MergedFrame(s[f], t[f], r[f], inA) && FrameOk(r[f]) && FrameOk(s[f]) && FrameOk(t[f]);
      assert MergedRegister(s[f].locals[i], t[f].locals[i], r[f].locals[i], inA);
    }
  }

  /** The memories after a merge: memory `k` is that of the path taken. */
  ghost function MemoryOf(m: seq<Plain>, k: nat, j: nat, inA: bool): seq<Plain> {
    if k < |m| && j < |m| then m[k := if inA then m[k] else m[j]] else m
  }

  lemma TakenFirst(m: seq<Plain>, k: nat, j: nat)
    ensures MemoryOf(m, k, j, true) == m
  {
  }

  /** Memory `k` is now the one of the path taken. */
  lemma JoinedAll(m: seq<Plain>, n: seq<Plain>, k: nat, j: nat, mos: set<MemoryObject>, inA: bool)
    requires Joined(m, n, k, j, mos, inA) && m[k].Keys == m[j].Keys
    requires forall mo :: mo in m[k] && mo !in mos ==> m[k][mo] == m[j][mo]
    ensures n == MemoryOf(m, k, j, inA)
  {
    assert n[k] == if inA then m[k] else m[j];
  }

  ghost predicate SameObject(w: World, k: nat, j: nat, mo: MemoryObject)
    requires k < |w.spaces| && j < |w.spaces|
    reads w, w.spaces
  {
    mo in w.spaces[k].objects && mo in w.spaces[j].objects && w.spaces[k].objects[mo] == w.spaces[j].objects[mo]
  }

  /** Where two states bind the same object state, they see the same bytes. */
  lemma Unmutated(w: World, k: nat, j: nat, a: Assignment)
    requires w.Valid() && k < |w.spaces| && j < |w.spaces|
    ensures w.Memories(a)[k].Keys == w.spaces[k].objects.Keys && w.Memories(a)[j].Keys == w.spaces[j].objects.Keys
    ensures forall mo :: SameObject(w, k, j, mo) ==> w.Memories(a)[k][mo] == w.Memories(a)[j][mo]
  {
    hide World.FrozenShared, World.Valid;
    forall mo | SameObject(w, k, j, mo)
      ensures w.Memories(a)[k][mo] == w.Memories(a)[j][mo]
    {
      w.PlainAt(k, mo, a);
      w.PlainAt(j, mo, a);
    }
  }

  /** The constraints of a merge are the union of the two paths, and `inA` tells them apart. */
  lemma MergedPath(p: seq<Expr>, q: seq<Expr>, common: seq<Expr>, inA: Expr, inB: Expr, path: seq<Expr>, a: Assignment)
    requires IsBool(inA) && IsBool(inB) && AreBool(common)
    requires PathHolds(common, a) <==> AllHold(SetOf(p) * SetOf(q), a)
    requires Holds(inA, a) <==> AllHold(SetOf(p) - SetOf(q), a)
    requires Holds(inB, a) <==> AllHold(SetOf(q) - SetOf(p), a)
    requires PathHolds(path, a) <==> PathHolds(common, a) && Satisfied(CreateOr(inA, inB), a)
    ensures PathHolds(path, a) <==> PathHolds(p, a) || PathHolds(q, a)
    ensures PathHolds(p, a) ==> Satisfied(inA, a)
    ensures PathHolds(q, a) && !PathHolds(p, a) ==> !Satisfied(inA, a)
  {
    hide WellTyped, Width, CreateOr, Holds, AllHold;
    UnionOfPaths(SetOf(p), SetOf(q), a);
    OrHolds(inA, inB, a);
  }

  /** The constraints of both paths together, and the condition under which the first one is taken. */
  method MergePaths(p: seq<Expr>, q: seq<Expr>, fuel: nat) returns (inA: Expr, path: seq<Expr>)
    requires AreBool(p) && AreBool(q)
    ensures IsBool(inA) && AreBool(path)
    ensures forall a: Assignment :: PathHolds(path, a) <==> PathHolds(p, a) || PathHolds(q, a)
    ensures forall a: Assignment :: PathHolds(p, a) ==> Satisfied(inA, a)
    ensures forall a: Assignment :: PathHolds(q, a) && !PathHolds(p, a) ==> !Satisfied(inA, a)
  {
    hide PathHolds, AllHold, WellTyped, Width, CreateOr, Holds, Satisfied;
    var x, y := SetOf(p), SetOf(q);
    inA := Conjunction(x - y);
    var inB := Conjunction(y - x);
    var manager := AddConstraints(x * y, fuel);
    var common := manager.constraints;
    manager.AddConstraint(CreateOr(inA, inB), fuel);
    path := manager.constraints;
    forall a: Assignment
      ensures PathHolds(path, a) <==> PathHolds(p, a) || PathHolds(q, a)
      ensures PathHolds(p, a) ==> Satisfied(inA, a)
      ensures PathHolds(q, a) && !PathHolds(p, a) ==> !Satisfied(inA, a)
    {
      MergedPath(p, q, common, inA, inB, path, a);
    }
  }

  ghost predicate Unbound(m: seq<Plain>, n: seq<Plain>, k: nat, mos: set<MemoryObject>) {
    k < |m| && n == m[k := m[k] - mos]
  }

  lemma UnboundNone(m: seq<Plain>, k: nat)
    requires k < |m|
    ensures Unbound(m, m, k, {})
  {
    assert m[k] - {} == m[k];
  }

  lemma UnboundOne(m: seq<Plain>, n: seq<Plain>, o: seq<Plain>, k: nat, mos: set<MemoryObject>, mo: MemoryObject)
    requires Unbound(m, n, k, mos) && |o| == |n| && o == n[k := n[k] - {mo}]
    ensures Unbound(m, o, k, mos + {mo})
  {
    assert m[k] - mos - {mo} == m[k] - (mos + {mo});
  }

  lemma SpaceInFootprint(w: World, k: nat)
    requires k < |w.spaces|
    ensures w in w.Footprint() && w.spaces[k] in w.Footprint()
  {
  }

  class ExecutionState {
    var pc: nat
    var symbolics: seq<(MemoryObject, Array)>
    var stack: seq<Frame>
    /** The state's address space, by its place in the world. */
    var space: nat
    var constraints: seq<Expr>
    var depth: nat
    var weight: real
    var coveredNew: bool
    var coveredLines: set<nat>

    ghost predicate Valid(w: World)
      reads this, w
    {
      space < |w.spaces| && FramesOk(stack) && AreBool(constraints)
    }

    /** When two states can merge: same code position, same symbolic inputs, same bound objects. */
    ghost predicate Mergeable(w: World, b: ExecutionState)
      requires Valid(w) && b.Valid(w)
      reads this, b, w, w.spaces
    {
      && pc == b.pc && symbolics == b.symbolics && SameCode(stack, b.stack)
      && w.spaces[space].objects.Keys == w.spaces[b.space].objects.Keys
    }

    /** What the code asserts: no read-only object differs between the states. */
    ghost predicate MutatedAreWritable(w: World, b: ExecutionState)
      requires Valid(w) && b.Valid(w)
      reads this, b, w, w.spaces
    {
      forall mo :: mo in w.spaces[space].objects && mo in w.spaces[b.space].objects && !SameObject(w, space, b.space, mo) ==>
        mo !in w.frozen
    }

    /** That assertion holds while no read-only object is set up after a fork. */
    lemma ReadOnlyAgree(w: World, b: ExecutionState)
      requires Valid(w) && b.Valid(w) && w.FrozenShared()
      ensures MutatedAreWritable(w, b)
    {
    }

    /** The memories are joined under the disjunction of what each path has of its own. */
    method MergeMemory(w: World, b: ExecutionState, inA: Expr)
      requires w.Valid() && Valid(w) && b.Valid(w) && IsBool(inA) && Mergeable(w, b) && MutatedAreWritable(w, b)
      requires this !in w.Footprint() && b !in w.Footprint()
      modifies w.Footprint()
      ensures Evolved(w)
      ensures forall a: Assignment :: w.Memories(a) == MemoryOf(old(w.Memories(a)), space, b.space, Satisfied(inA, a))
    {
      hide World.FrozenShared, IsBool, Satisfied, Joined, World.Valid, World.Footprint, World.Memories, World.PlainOf, MemoryOf;
      var k, j := space, b.space;
      var x, y := w.spaces[k].objects, w.spaces[j].objects;
      var mutated := set mo | mo in x && x[mo] != y[mo];
      forall a: Assignment {
        Unmutated(w, k, j, a);
      }
      MergeObjects(w, k, j, mutated, inA);
      forall a: Assignment ensures w.Memories(a) == MemoryOf(old(w.Memories(a)), k, j, Satisfied(inA, a)) {
        JoinedAll(old(w.Memories(a)), w.Memories(a), k, j, mutated, Satisfied(inA, a));
      }
    }

    /** On inputs of the first path everything is as it was there; on other inputs of the second path the memory is
        the second one's, and registers with a value on both sides have the second one's value. */
    ghost predicate MergedAs(m: seq<Plain>, n: seq<Plain>, s: seq<Frame>, t: seq<Frame>, r: seq<Frame>, onA: bool,
        onB: bool, b: ExecutionState, a: Assignment)
      reads this, b
    {
      && (onA ==> n == m && RegistersLike(r, s, t, s, a))
      && (onB && !onA ==> n == MemoryOf(m, space, b.space, false) && RegistersLike(r, s, t, t, a))
    }

    /** Registers and constraints are no part of any memory. */
    method SetPath(w: World, stack: seq<Frame>, constraints: seq<Expr>)
      requires w.Valid() && this !in w.Footprint()
      modifies this`stack, this`constraints
      ensures this.stack == stack && this.constraints == constraints
      ensures Evolved(w) && forall a: Assignment :: w.Memories(a) == old(w.Memories(a))
    {
      hide World.FrozenShared, World.Valid, World.Grew, World.KeepsFrozen, World.PlainOf, World.Memories;
      this.stack, this.constraints := stack, constraints;
      w.UndisturbedKeepsValid();
      forall a: Assignment {
        w.UndisturbedMemories(a);
      }
    }

    /** Joins `b` into this state. If the states do not match, nothing changes; otherwise the result stands for
        exactly the inputs of the two, and shows on each side what that state showed. */
    method Merge(w: World, b: ExecutionState, fuel: nat) returns (ok: bool)
      requires w.Valid() && Valid(w) && b.Valid(w) && b != this && this !in w.Footprint() && b !in w.Footprint()
      requires SameCode(stack, b.stack) ==> SameWidths(stack, b.stack)
      requires Mergeable(w, b) ==> MutatedAreWritable(w, b)
      modifies this`stack, this`constraints, w.Footprint()
      ensures ok <==> old(pc == b.pc && symbolics == b.symbolics && |stack| == |b.stack| &&
        (forall f :: 0 <= f < |stack| ==> stack[f].caller == b.stack[f].caller && stack[f].kf == b.stack[f].kf) &&
        w.spaces[space].objects.Keys == w.spaces[b.space].objects.Keys)
      ensures ok ==> pc == b.pc && symbolics == b.symbolics && |stack| == |b.stack| && |stack| == |old(stack)|
      ensures ok ==> forall f :: 0 <= f < |stack| ==> stack[f].caller == b.stack[f].caller && stack[f].kf == b.stack[f].kf
      ensures ok ==> forall f :: 0 <= f < |stack| ==> stack[f] == old(stack)[f].(locals := stack[f].locals)
      ensures !ok ==>
        unchanged(this) && unchanged(w) && unchanged(w.spaces) && forall a: Assignment :: w.Memories(a) == old(w.Memories(a))
      ensures ok ==> Evolved(w) && Valid(w)
      ensures ok ==> forall a: Assignment :: PathHolds(constraints, a) <==>
        old(PathHolds(constraints, a)) || PathHolds(b.constraints, a)
      ensures ok ==> forall a: Assignment ::
        MergedAs(old(w.Memories(a)), w.Memories(a), old(stack), b.stack, stack,
          old(PathHolds(constraints, a)), PathHolds(b.constraints, a), b, a)
    {
      hide World.FrozenShared, World.Valid, World.Footprint, World.Memories, RegistersLike, PathHolds, MemoryOf;
      if pc != b.pc || symbolics != b.symbolics { return false; }
      var same := CompareStacks(stack, b.stack);
      if !same || w.spaces[space].objects.Keys != w.spaces[b.space].objects.Keys { return false; }
      Join(w, b, fuel);
      ok := true;
    }

    method Join(w: World, b: ExecutionState, fuel: nat)
      requires w.Valid() && Valid(w) && b.Valid(w) && b != this && this !in w.Footprint() && b !in w.Footprint()
      requires Mergeable(w, b) && SameWidths(stack, b.stack) && MutatedAreWritable(w, b)
      modifies this`stack, this`constraints, w.Footprint()
      ensures Evolved(w) && Valid(w)
      ensures |stack| == |old(stack)|
      ensures forall f :: 0 <= f < |stack| ==> stack[f] == old(stack)[f].(locals := stack[f].locals)
      ensures forall a: Assignment :: PathHolds(constraints, a) <==> old(PathHolds(constraints, a)) || PathHolds(b.constraints, a)
      ensures forall a: Assignment ::
        MergedAs(old(w.Memories(a)), w.Memories(a), old(stack), b.stack, stack,
          old(PathHolds(constraints, a)), PathHolds(b.constraints, a), b, a)
    {
      hide World.FrozenShared, World.Valid, World.Footprint, World.Memories, RegistersLike, PathHolds, AllHold,
        MergedFrame, MemoryOf, WellTyped, Width, Holds;
      var inA, path := MergePaths(constraints, b.constraints, fuel);
      var merged := MergeStacks(stack, b.stack, inA);
      MergedFrames(stack, b.stack, merged, inA);
      MergeMemory(w, b, inA);
      SetPath(w, merged, path);
      forall a: Assignment
        ensures MergedAs(old(w.Memories(a)), w.Memories(a), old(stack), b.stack, merged,
          PathHolds(old(constraints), a), PathHolds(b.constraints, a), b, a)
      {
        MergedIsLike(merged, old(stack), b.stack, inA, a);
        TakenFirst(old(w.Memories(a)), space, b.space);
      }
    }

    constructor (k: nat, pc: nat, symbolics: seq<(MemoryObject, Array)>, stack: seq<Frame>, constraints: seq<Expr>,
        depth: nat, weight: real)
      ensures this.pc == pc && this.symbolics == symbolics && this.stack == stack && space == k && this.constraints == constraints
      ensures this.depth == depth && this.weight == weight && !coveredNew && coveredLines == {}
    {
      this.pc, this.symbolics, this.stack, space, this.constraints := pc, symbolics, stack, k, constraints;
      this.depth, this.weight, coveredNew, coveredLines := depth, weight, false, {};
    }

    /** The other side of a branch: the same state with a memory of its own; the weight is shared out. */
    method Branch(w: World) returns (falseState: ExecutionState)
      requires w.Valid() && Valid(w) && this !in w.Footprint()
      modifies this`depth, this`weight, w.Footprint()
      ensures w.Valid() && w.Grew() && w.KeepsFrozen() && Valid(w) && fresh(falseState) && falseState.Valid(w) &&
        falseState !in w.Footprint()
      ensures depth == falseState.depth == old(depth) + 1
      ensures weight == falseState.weight && weight + falseState.weight == old(weight)
      ensures falseState.pc == pc && falseState.symbolics == symbolics && falseState.stack == stack &&
        falseState.constraints == constraints
      ensures !falseState.coveredNew && falseState.coveredLines == {}
      ensures falseState.space == |old(w.spaces)| && forall a: Assignment :: Forked(old(w.Memories(a)), w.Memories(a), space)
    {
      hide World.FrozenShared, World.Valid, World.Footprint, World.PlainOf, World.Memories, FramesOk;
      SpaceInFootprint(w, space);
      falseState := CopyState(w);
      w.ForkSpace(space);
    }

    /** Everything about a branch but its memory. */
    method CopyState(w: World) returns (falseState: ExecutionState)
      requires w.Valid() && Valid(w) && this !in w.Footprint()
      modifies this`depth, this`weight
      ensures w.Valid() && w.Grew() && w.KeepsFrozen() && w.spaces == old(w.spaces) && falseState !in w.Footprint()
      ensures falseState.CopyOf(this, |w.spaces|, old(depth), old(weight)) && fresh(falseState)
      ensures pc == old(pc) && symbolics == old(symbolics) && stack == old(stack) && constraints == old(constraints) &&
        space == old(space)
      ensures forall a: Assignment :: w.Memories(a) == old(w.Memories(a))
    {
      hide World.FrozenShared, World.Valid, World.Grew, World.KeepsFrozen, World.PlainOf, World.Memories, FramesOk, CopyOf;
      falseState := CopyFields(|w.spaces|);
      assert w.Undisturbed() && falseState !in w.Footprint();
      w.UndisturbedKeepsValid();
      forall a: Assignment {
        w.UndisturbedMemories(a);
      }
    }

    method CopyFields(k: nat) returns (falseState: ExecutionState)
      modifies this`depth, this`weight
      ensures fresh(falseState) && falseState.CopyOf(this, k, old(depth), old(weight))
    {
      depth := depth + 1;
      falseState := new ExecutionState(k, pc, symbolics, stack, constraints, depth, weight);
      weight := weight * 0.5;
      falseState.weight := falseState.weight - weight;
    }

    /** A copy of state `s`, which was at this depth and had this weight. */
    ghost predicate CopyOf(s: ExecutionState, k: nat, oldDepth: nat, oldWeight: real)
      reads this, s
    {
      && s.depth == depth == oldDepth + 1 && s.weight == weight && weight + s.weight == oldWeight && space == k
      && pc == s.pc && symbolics == s.symbolics && stack == s.stack && constraints == s.constraints
      && !coveredNew && coveredLines == {}
    }

    /** Leaves a function: its stack objects are unbound. */
    method PopFrame(w: World)
      requires w.Valid() && Valid(w) && this !in w.Footprint() && stack != []
      modifies this`stack, this`constraints, w.Footprint()
      ensures w.Valid() && w.Grew() && w.KeepsFrozen() && Valid(w) && constraints == old(constraints) &&
        stack == old(stack)[..|old(stack)| - 1]
      ensures forall a: Assignment :: Unbound(old(w.Memories(a)), w.Memories(a), space, SetOf(old(stack[|stack| - 1].allocas)))
    {
      hide World.FrozenShared, World.Valid, World.Footprint, World.PlainOf, World.Memories;
      var allocas := stack[|stack| - 1].allocas;
      var n := |stack| - 1;
      forall a: Assignment {
        UnboundNone(w.Memories(a), space);
      }
      assert SetOf(allocas[..0]) == {};
      for i := 0 to |allocas|
        invariant w.Valid() && w.Grew() && w.KeepsFrozen() && w.spaces == old(w.spaces) && unchanged(this)
        invariant forall a: Assignment :: Unbound(old(w.Memories(a)), w.Memories(a), space, SetOf(allocas[..i]))
      {
        assert allocas[..i + 1] == allocas[..i] + [allocas[i]];
        assert SetOf(allocas[..i + 1]) == SetOf(allocas[..i]) + {allocas[i]};
        SpaceInFootprint(w, space);
        label L:
        w.Free(space, allocas[i]);
        forall a: Assignment ensures Unbound(old(w.Memories(a)), w.Memories(a), space, SetOf(allocas[..i + 1])) {
          UnboundOne(old(w.Memories(a)), old@L(w.Memories(a)), w.Memories(a), space, SetOf(allocas[..i]), allocas[i]);
        }
      }
      assert allocas[..|allocas|] == allocas;
      SetPath(w, stack[..n], constraints);
    }
  }
}
