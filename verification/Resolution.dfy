/** Which objects a symbolic address may lie in: KLEE's search of an address space with the help of a solver. */
module Resolution {
  import opened Wrappers
  import opened Words
  import opened Expressions
  import opened ExprBuilder
  import opened Memory
  import opened AddressSpaces

  // ----- the bounds checks of a memory object

  /** SubExpr::create(pointer, getBaseExpr()) */
  function OffsetExpr(mo: MemoryObject, p: Expr): (e: Expr)
    requires WellTyped(p) && Width(p) > 0
    ensures WellTyped(e) && Width(e) == Width(p)
  {
    CreateSubConst(p, FromInt(mo.address, Width(p)))
  }

  /** getBoundsCheckPointer */
  function BoundsCheck(mo: MemoryObject, p: Expr): (e: Expr)
    requires WellTyped(p) && Width(p) > 0
    ensures WellTyped(e) && Width(e) == BOOL
  {
    if mo.size == 0 then CreateEq(OffsetExpr(mo, p), ConstOf(0, Width(p)))
    else CreateUlt(OffsetExpr(mo, p), ConstOf(mo.size, Width(p)))
  }

  /** The addresses of an object; one without bytes still has its own address. */
  predicate Contains(mo: MemoryObject, address: nat) {
    address == mo.address || (mo.address <= address < mo.address + mo.size)
  }

  /** The object fits into an address space of `w` bits. */
  predicate Fits(mo: MemoryObject, w: nat) { mo.address < Pow2(w) && mo.address + mo.size <= Pow2(w) && mo.size < Pow2(w) }

  function AddressOf(p: Expr, a: Assignment): nat
    requires WellTyped(p)
  {
    ToNat(Eval(p, a))
  }

  lemma SubValue(x: Bits, y: Bits)
    requires |x| == |y|
    ensures ToNat(Words.Sub(x, y)) == ToNat(x) - ToNat(y) + if ToNat(x) < ToNat(y) then Pow2(|x|) else 0
  {
    hide FromInt, ToNat, Pow2;
    FromIntPeriod(ToNat(x) - ToNat(y), |x|);
  }

  /** The unsigned comparison of the wrapped offset is membership, for objects that do not wrap around. */
  lemma BoundsCheckSound(mo: MemoryObject, p: Expr, a: Assignment)
    requires WellTyped(p) && Width(p) > 0 && Fits(mo, Width(p))
    ensures Holds(BoundsCheck(mo, p), a) <==> Contains(mo, AddressOf(p, a))
  {
    hide Eval, WellTyped, CreateSubConst, CreateEq, CreateUlt, ToNat, FromInt, Words.Sub, Pow2;
    var w := Width(p);
    var base := FromInt(mo.address, w);
    var offset := OffsetExpr(mo, p);
    SubFromSound(p, base, a);
    SubValue(Eval(p, a), base);
    var bound := ConstOf(mo.size, w);
    EvalConst(bound.bits, a);
    if mo.size == 0 {
      EqSound(offset, bound, a);
      if ToNat(Eval(offset, a)) == ToNat(bound.bits) {
        ToNatInjective(Eval(offset, a), bound.bits);
      }
    } else {
      UltSound(offset, bound, a);
    }
  }

  // ----- the solver

  /** A solver for the current path: every answer it gives is right, but it may give none. */
  class Solver {
    const models: set<Assignment>
    var budget: nat
    /** A query went unanswered or time ran out. */
    var failed: bool

    constructor (models: set<Assignment>, budget: nat)
      ensures this.models == models && this.budget == budget && !failed
    {
      this.models, this.budget, failed := models, budget, false;
    }

    /** Since the budget was `b` at most `n` queries have been asked; with enough of it none went unanswered. */
    predicate Within(b: nat, wasFailed: bool, n: nat)
      reads this
    {
      budget + n >= b && (wasFailed ==> failed) && (b >= n ==> failed == wasFailed)
    }

    /** A query is answered exactly if there is budget left. */
    method Spend() returns (ok: bool)
      modifies this
      ensures ok <==> old(budget) > 0
      ensures failed == (old(failed) || !ok) && budget == if ok then old(budget) - 1 else old(budget)
    {
      ok := budget > 0;
      if ok { budget := budget - 1; } else { failed := true; }
    }

    method MayBeTrue(e: Expr) returns (ok: bool, r: bool)
      requires WellTyped(e) && Width(e) == BOOL
      modifies this
      ensures failed == (old(failed) || !ok) && Within(old(budget), old(failed), 1)
      ensures ok ==> (r <==> exists a :: a in models && Holds(e, a))
    {
      ok := Spend();
      r := exists a :: a in models && Holds(e, a);
    }

    method MustBeTrue(e: Expr) returns (ok: bool, r: bool)
      requires WellTyped(e) && Width(e) == BOOL
      modifies this
      ensures failed == (old(failed) || !ok) && Within(old(budget), old(failed), 1)
      ensures ok ==> (r <==> forall a :: a in models ==> Holds(e, a))
    {
      ok := Spend();
      r := forall a :: a in models ==> Holds(e, a);
    }

    /** A value of `e` on this path. */
    method GetValue(e: Expr) returns (ok: bool, value: Bits)
      requires WellTyped(e) && models != {}
      modifies this
      ensures failed == (old(failed) || !ok) && Within(old(budget), old(failed), 1)
      ensures exists a :: a in models && value == Eval(e, a)
    {
      ok := Spend();
      var a :| a in models;
      value := Eval(e, a);
    }

    method TimedOut() returns (t: bool)
      modifies this
      ensures failed == (old(failed) || t) && Within(old(budget), old(failed), 1)
    {
      var ok := Spend();
      t := !ok;
    }
  }

  // ----- the objects in address order

  /** The object may contain the address. */
  ghost predicate Feasible(mo: MemoryObject, p: Expr, models: set<Assignment>)
    requires WellTyped(p)
  {
    exists a :: a in models && Contains(mo, AddressOf(p, a))
  }

  ghost predicate Always(mo: MemoryObject, p: Expr, models: set<Assignment>)
    requires WellTyped(p)
  {
    forall a :: a in models ==> Contains(mo, AddressOf(p, a))
  }

  ghost predicate Overlap(mo: MemoryObject, other: MemoryObject) {
    exists x: nat :: Contains(mo, x) && Contains(other, x)
  }

  /** Objects that fit and do not overlap, by ascending address. */
  ghost predicate Layout(mos: seq<MemoryObject>, w: nat) {
    && (forall i :: 0 <= i < |mos| ==> Fits(mos[i], w))
    && (forall i, j :: 0 <= i < j < |mos| ==> mos[i].address < mos[j].address && !Overlap(mos[i], mos[j]))
  }

  /** What lies below the start of one object contains nothing from there on. */
  lemma Apart(mos: seq<MemoryObject>, w: nat, i: nat, j: nat, x: nat)
    requires Layout(mos, w) && i < j < |mos|
    ensures x >= mos[j].address ==> !Contains(mos[i], x)
    ensures x < mos[j].address ==> !Contains(mos[j], x)
    ensures !(Contains(mos[i], x) && Contains(mos[j], x))
  {
    assert Contains(mos[j], mos[j].address);
    assert !Contains(mos[i], mos[j].address);
  }

  /** ImmutableMap::upper_bound: how many objects start at or below an address. */
  method UpperBound(mos: seq<MemoryObject>, w: nat, address: nat) returns (k: nat)
    requires Layout(mos, w)
    ensures k <= |mos|
    ensures forall i :: 0 <= i < |mos| ==> (i < k <==> mos[i].address <= address)
  {
    k := 0;
    while k < |mos| && mos[k].address <= address
      invariant k <= |mos| && forall i :: 0 <= i < k ==> mos[i].address <= address
    {
      k := k + 1;
    }
  }

  // ----- resolveOne

  /** A constant address: only the object that starts closest below it can contain it. */
  method ResolveConstant(mos: seq<MemoryObject>, w: nat, address: nat) returns (result: Option<MemoryObject>)
    requires Layout(mos, w)
    ensures result.Some? ==> result.value in mos && Contains(result.value, address)
    ensures forall i :: 0 <= i < |mos| && Contains(mos[i], address) ==> result == Some(mos[i])
  {
    var k := UpperBound(mos, w, address);
    result := None;
    if k > 0 {
      var mo := mos[k - 1];
      forall i: nat | i < k - 1 ensures !Contains(mos[i], address) {
        Apart(mos, w, i, k - 1, address);
      }
      assert forall i :: 0 <= i < |mos| && Contains(mos[i], address) ==> i == k - 1;
      if (mo.size == 0 && address == mo.address) || address - mo.address < mo.size {
        result := Some(mo);
      }
    }
  }

  /** What the search has found out: keep looking, stop here, or give up. */
  datatype Verdict = Go | Stop | GiveUp

  /** One object of the search of resolve: it is listed if it may contain the address; if it is the first and must, the
      search is over. The cap is looked at for every later one. */
  method Consider(mo: MemoryObject, solver: Solver, p: Expr, rl: seq<MemoryObject>, maxResolutions: nat)
    returns (verdict: Verdict, list: seq<MemoryObject>)
    requires WellTyped(p) && Width(p) > 0 && Fits(mo, Width(p))
    modifies solver
    ensures old(solver.failed) ==> solver.failed
    ensures list == rl || (list == rl + [mo] && Feasible(mo, p, solver.models))
    ensures verdict.Go? ==>
      (list == rl <==> !Feasible(mo, p, solver.models)) && (list != rl ==> |list| == 1 || |list| != maxResolutions)
    ensures !verdict.GiveUp? ==> solver.failed == old(solver.failed)
    ensures solver.Within(old(solver.budget), old(solver.failed), 2)
    ensures verdict.Stop? ==> list == [mo] && rl == [] && Always(mo, p, solver.models)
    ensures verdict.GiveUp? ==> solver.failed || (list == rl + [mo] && 2 <= |list| == maxResolutions)
  {
    hide Eval, WellTyped, Width, CreateSubConst, CreateEq, CreateUlt, ToNat, FromInt, Pow2, BoundsCheck, Fits, Contains, Holds;
    forall a: Assignment {
      BoundsCheckSound(mo, p, a);
    }
    list := rl;
    var inBounds := BoundsCheck(mo, p);
    var ok, mayBeTrue := solver.MayBeTrue(inBounds);
    if !ok { return GiveUp, list; }
    if mayBeTrue {
      list := list + [mo];
      if |list| == 1 {
        var mustBeTrue;
        ok, mustBeTrue := solver.MustBeTrue(inBounds);
        if !ok { return GiveUp, list; }
        if mustBeTrue { return Stop, list; }
      } else if |list| == maxResolutions {
        return GiveUp, list;
      }
    }
    verdict := Go;
  }

  /** Must the address lie at or above the start of the object? */
  method IsAbove(mo: MemoryObject, solver: Solver, p: Expr) returns (ok: bool, r: bool)
    requires WellTyped(p) && Width(p) > 0 && Fits(mo, Width(p))
    modifies solver
    ensures solver.failed == (old(solver.failed) || !ok) && solver.Within(old(solver.budget), old(solver.failed), 1)
    ensures ok ==> (r <==> forall a :: a in solver.models ==> mo.address <= AddressOf(p, a))
  {
    hide Eval, WellTyped, Width, CreateUge, ToNat, FromInt, Pow2;
    var base := ConstOf(mo.address, Width(p));
    forall a: Assignment {
      UgeSound(p, base, a);
    }
    forall a: Assignment {
      EvalConst(base.bits, a);
    }
    ok, r := solver.MustBeTrue(CreateUge(p, base));
  }

  method IsBelow(mo: MemoryObject, solver: Solver, p: Expr) returns (ok: bool, r: bool)
    requires WellTyped(p) && Width(p) > 0 && Fits(mo, Width(p))
    modifies solver
    ensures solver.failed == (old(solver.failed) || !ok) && solver.Within(old(solver.budget), old(solver.failed), 1)
    ensures ok ==> (r <==> forall a :: a in solver.models ==> AddressOf(p, a) < mo.address)
  {
    hide Eval, WellTyped, Width, CreateUlt, ToNat, FromInt, Pow2;
    var base := ConstOf(mo.address, Width(p));
    forall a: Assignment {
      UltSound(p, base, a);
    }
    forall a: Assignment {
      EvalConst(base.bits, a);
    }
    ok, r := solver.MustBeTrue(CreateUlt(p, base));
  }

  // ----- what the answers rule out

  lemma AlwaysExcludes(mos: seq<MemoryObject>, i: nat, p: Expr, models: set<Assignment>)
    requires WellTyped(p) && Layout(mos, Width(p)) && i < |mos| && Always(mos[i], p, models)
    ensures forall j :: 0 <= j < |mos| && j != i ==> !Feasible(mos[j], p, models)
  {
    hide AddressOf, WellTyped, Width, Contains, Fits;
    forall j: nat, a | j < |mos| && j != i && a in models ensures !Contains(mos[j], AddressOf(p, a)) {
      Apart(mos, Width(p), if i < j then i else j, if i < j then j else i, AddressOf(p, a));
    }
  }

  lemma AboveExcludes(mos: seq<MemoryObject>, i: nat, p: Expr, models: set<Assignment>)
    requires WellTyped(p) && Layout(mos, Width(p)) && i < |mos|
    requires forall a :: a in models ==> mos[i].address <= AddressOf(p, a)
    ensures forall j :: 0 <= j < i ==> !Feasible(mos[j], p, models)
  {
    hide AddressOf, WellTyped, Width, Contains, Fits;
    forall j: nat, a | j < i && a in models ensures !Contains(mos[j], AddressOf(p, a)) {
      Apart(mos, Width(p), j, i, AddressOf(p, a));
    }
  }

  lemma BelowExcludes(mos: seq<MemoryObject>, i: nat, p: Expr, models: set<Assignment>)
    requires WellTyped(p) && Layout(mos, Width(p)) && i < |mos|
    requires forall a :: a in models ==> AddressOf(p, a) < mos[i].address
    ensures forall j :: i <= j < |mos| ==> !Feasible(mos[j], p, models)
  {
    hide AddressOf, WellTyped, Width, Fits;
    assert forall j :: i <= j < |mos| ==> mos[i].address <= mos[j].address;
  }

  // ----- resolve

  ghost predicate Distinct(rl: seq<MemoryObject>) { forall i, j :: 0 <= i < j < |rl| ==> rl[i] != rl[j] }

  /** `rl` lists the feasible objects of the range, each once. */
  ghost predicate Lists(rl: seq<MemoryObject>, mos: seq<MemoryObject>, lo: nat, hi: nat, p: Expr, models: set<Assignment>)
    requires WellTyped(p)
  {
    && lo <= hi <= |mos| && Distinct(rl)
    && forall mo :: mo in rl <==> mo in mos[lo..hi] && Feasible(mo, p, models)
  }

  /** Whatever happens, only feasible objects are listed, and none twice. */
  ghost predicate ListsSome(rl: seq<MemoryObject>, mos: seq<MemoryObject>, p: Expr, models: set<Assignment>)
    requires WellTyped(p)
  {
    Distinct(rl) && forall mo :: mo in rl ==> mo in mos && Feasible(mo, p, models)
  }

  lemma NotInRange(mos: seq<MemoryObject>, w: nat, lo: nat, hi: nat, k: nat)
    requires Layout(mos, w) && lo <= hi <= |mos| && k < |mos| && !(lo <= k < hi)
    ensures mos[k] !in mos[lo..hi]
  {
    hide Fits, Overlap;
    forall j | lo <= j < hi ensures mos[j].address != mos[k].address {
    }
  }

  lemma ListsMore(rl: seq<MemoryObject>, list: seq<MemoryObject>, mos: seq<MemoryObject>, lo: nat, hi: nat, k: nat,
      p: Expr, models: set<Assignment>)
    requires WellTyped(p) && Layout(mos, Width(p)) && Lists(rl, mos, lo, hi, p, models) && k < |mos| && (k + 1 == lo || k == hi)
    requires list == rl || (list == rl + [mos[k]] && Feasible(mos[k], p, models))
    ensures ListsSome(list, mos, p, models)
    ensures (list == rl <==> !Feasible(mos[k], p, models)) ==>
      Lists(list, mos, if k == hi then lo else k, if k == hi then k + 1 else hi, p, models)
  {
    hide WellTyped, Width, Layout, Feasible;
    NotInRange(mos, Width(p), lo, hi, k);
    if k == hi {
      assert mos[lo..k + 1] == mos[lo..hi] + [mos[k]];
    } else {
      assert mos[k..hi] == [mos[k]] + mos[lo..hi];
    }
  }

  /** How far a search has come when it has neither finished nor given up. */
  ghost predicate Searching(rl: seq<MemoryObject>, max: nat) { max >= 2 ==> |rl| < max }

  ghost predicate GaveUp(rl: seq<MemoryObject>, max: nat, failed: bool) {
    (max >= 2 ==> |rl| <= max) && (failed || (max >= 2 && |rl| == max))
  }

  lemma ListsNone(mos: seq<MemoryObject>, i: nat, p: Expr, models: set<Assignment>)
    requires WellTyped(p) && i <= |mos|
    ensures Lists([], mos, i, i, p, models)
  {
  }

  lemma ListsIsSome(rl: seq<MemoryObject>, mos: seq<MemoryObject>, lo: nat, hi: nat, p: Expr, models: set<Assignment>)
    requires WellTyped(p) && Lists(rl, mos, lo, hi, p, models)
    ensures ListsSome(rl, mos, p, models)
  {
    hide WellTyped, Feasible;
  }

  lemma AlwaysLists(mos: seq<MemoryObject>, i: nat, p: Expr, models: set<Assignment>)
    requires WellTyped(p) && Layout(mos, Width(p)) && i < |mos| && Always(mos[i], p, models) && models != {}
    ensures Lists([mos[i]], mos, 0, |mos|, p, models)
  {
    hide WellTyped, Width, Fits, Contains;
    AlwaysExcludes(mos, i, p, models);
    var a :| a in models;
    assert Feasible(mos[i], p, models);
    assert mos[0..|mos|] == mos;
  }

  /** Objects that are not feasible may be added to the range. */
  lemma Widen(rl: seq<MemoryObject>, mos: seq<MemoryObject>, lo: nat, hi: nat, lo2: nat, hi2: nat, p: Expr,
      models: set<Assignment>)
    requires WellTyped(p) && Lists(rl, mos, lo, hi, p, models) && lo2 <= lo && hi <= hi2 <= |mos|
    requires forall j :: lo2 <= j < hi2 && !(lo <= j < hi) ==> !Feasible(mos[j], p, models)
    ensures Lists(rl, mos, lo2, hi2, p, models)
  {
    hide WellTyped, Feasible;
    forall mo ensures mo in rl <==> mo in mos[lo2..hi2] && Feasible(mo, p, models) {
      if mo in mos[lo2..hi2] && Feasible(mo, p, models) {
        var j :| lo2 <= j < hi2 && mos[j] == mo;
        assert mos[lo..hi][j - lo] == mo;
      }
      if mo in rl {
        var j :| lo <= j < hi && mos[j] == mo;
        assert mos[lo2..hi2][j - lo2] == mo;
      }
    }
  }

  /** The search below the example address. */
  method SearchDown(mos: seq<MemoryObject>, start: nat, solver: Solver, p: Expr, max: nat)
      returns (verdict: Verdict, rl: seq<MemoryObject>)
    requires WellTyped(p) && Width(p) > 0 && Layout(mos, Width(p)) && start <= |mos| && !solver.failed && solver.models != {}
    modifies solver
    ensures verdict.GiveUp? ==> ListsSome(rl, mos, p, solver.models) && GaveUp(rl, max, solver.failed)
    ensures !verdict.GiveUp? ==> !solver.failed && Searching(rl, max)
    ensures solver.Within(old(solver.budget), false, 4 * start)
    ensures verdict.Stop? ==> |rl| == 1 && Lists(rl, mos, 0, |mos|, p, solver.models)
    ensures verdict.Go? ==> Lists(rl, mos, 0, start, p, solver.models)
  {
    hide WellTyped, Width, Fits, Contains, Feasible, AddressOf, Always, Lists, ListsSome;
    rl := [];
    ListsNone(mos, start, p, solver.models);
    var oi: nat := start;
    while oi != 0
      invariant oi <= start && !solver.failed && Searching(rl, max) && solver.Within(old(solver.budget), false, 4 * (start - oi))
      invariant Lists(rl, mos, oi, start, p, solver.models)
    {
      ListsIsSome(rl, mos, oi, start, p, solver.models);
      oi := oi - 1;
      var late := solver.TimedOut();
      if late { return GiveUp, rl; }
      ghost var was := rl;
      verdict, rl := Consider(mos[oi], solver, p, rl, max);
      ListsMore(was, rl, mos, oi + 1, start, oi, p, solver.models);
      if verdict.GiveUp? { return; }
      if verdict.Stop? {
        AlwaysLists(mos, oi, p, solver.models);
        return;
      }
      var ok, above := IsAbove(mos[oi], solver, p);
      if !ok { return GiveUp, rl; }
      if above {
        AboveExcludes(mos, oi, p, solver.models);
        Widen(rl, mos, oi, start, 0, start, p, solver.models);
        return Go, rl;
      }
    }
    verdict := Go;
  }

  /** The search above it. */
  method SearchUp(mos: seq<MemoryObject>, start: nat, solver: Solver, p: Expr, rl0: seq<MemoryObject>, max: nat)
    returns (verdict: Verdict, rl: seq<MemoryObject>)
    requires WellTyped(p) && Width(p) > 0 && Layout(mos, Width(p)) && start <= |mos| && !solver.failed && solver.models != {}
    requires Lists(rl0, mos, 0, start, p, solver.models) && Searching(rl0, max)
    modifies solver
    ensures verdict.GiveUp? ==> ListsSome(rl, mos, p, solver.models) && GaveUp(rl, max, solver.failed)
    ensures !verdict.GiveUp? ==> !solver.failed && Searching(rl, max) && Lists(rl, mos, 0, |mos|, p, solver.models)
    ensures solver.Within(old(solver.budget), false, 4 * (|mos| - start))
  {
    hide WellTyped, Width, Fits, Contains, Feasible, AddressOf, Always, Lists, ListsSome;
    rl := rl0;
    var oi := start;
    while oi != |mos|
      invariant start <= oi <= |mos| && !solver.failed && Searching(rl, max) &&
        solver.Within(old(solver.budget), false, 4 * (oi - start))
      invariant Lists(rl, mos, 0, oi, p, solver.models)
    {
      ListsIsSome(rl, mos, 0, oi, p, solver.models);
      var late := solver.TimedOut();
      if late { return GiveUp, rl; }
      var ok, below := IsBelow(mos[oi], solver, p);
      if !ok { return GiveUp, rl; }
      if below {
        BelowExcludes(mos, oi, p, solver.models);
        Widen(rl, mos, 0, oi, 0, |mos|, p, solver.models);
        return Go, rl;
      }
      ghost var was := rl;
      verdict, rl := Consider(mos[oi], solver, p, rl, max);
      ListsMore(was, rl, mos, 0, oi, oi, p, solver.models);
      if verdict.GiveUp? { return; }
      if verdict.Stop? {
        AlwaysLists(mos, oi, p, solver.models);
        return;
      }
      oi := oi + 1;
    }
    verdict := Go;
  }

  /** A constant address is feasible where it is contained. */
  lemma FeasibleConstant(mo: MemoryObject, p: Expr, models: set<Assignment>)
    requires WellTyped(p) && p.Const? && models != {}
    ensures Feasible(mo, p, models) <==> Contains(mo, ToNat(p.bits))
  {
    var a :| a in models;
    assert AddressOf(p, a) == ToNat(p.bits);
  }

  method ResolveSymbolic(mos: seq<MemoryObject>, solver: Solver, p: Expr, max: nat)
      returns (verdict: Verdict, rl: seq<MemoryObject>)
    requires WellTyped(p) && Width(p) > 0 && Layout(mos, Width(p)) && solver.models != {} && !solver.failed
    modifies solver
    ensures verdict.GiveUp? ==> ListsSome(rl, mos, p, solver.models) && GaveUp(rl, max, solver.failed)
    ensures !verdict.GiveUp? ==> !solver.failed && Searching(rl, max) && Lists(rl, mos, 0, |mos|, p, solver.models)
    ensures solver.Within(old(solver.budget), false, 1 + 4 * |mos|)
  {
    hide Width, Fits, Contains, Feasible, AddressOf, Always, ToNat, Eval;
    var ok, cex := solver.GetValue(p);
    if !ok { return GiveUp, []; }
    var start := UpperBound(mos, Width(p), ToNat(cex));
    verdict, rl := SearchDown(mos, start, solver, p, max);
    if verdict.Go? {
      verdict, rl := SearchUp(mos, start, solver, p, rl, max);
    }
  }

  /** At most one object may contain the address. */
  ghost predicate Unambiguous(mos: seq<MemoryObject>, p: Expr, models: set<Assignment>)
    requires WellTyped(p)
  {
    forall m, n :: m in mos && n in mos && Feasible(m, p, models) && Feasible(n, p, models) ==> m == n
  }

  lemma CapKept(mos: seq<MemoryObject>, rl: seq<MemoryObject>, p: Expr, models: set<Assignment>)
    requires WellTyped(p) && Distinct(rl) && forall mo :: mo in rl <==> mo in mos && Feasible(mo, p, models)
    ensures |rl| <= 1 <==> Unambiguous(mos, p, models)
  {
    hide WellTyped, Feasible;
    if |rl| > 1 {
      assert rl[0] in rl && rl[1] in rl && rl[0] != rl[1];
    } else {
      forall m, n | m in mos && n in mos && Feasible(m, p, models) && Feasible(n, p, models) ensures m == n {
        assert m in rl && n in rl;
      }
    }
  }

  /** How many queries a search asks at most. */
  function Queries(mos: seq<MemoryObject>): nat { 1 + 4 * |mos| }

  /** resolve: if it reports a complete answer, the list holds exactly the objects the address may lie in, each once.
      If not, the list is still right as far as it goes. With a budget for all queries only reaching a cap of 2 or more
      makes the answer incomplete; such a cap is kept, and a cap of 1 only where it is not needed. */
  method Resolve(mos: seq<MemoryObject>, solver: Solver, p: Expr, maxResolutions: nat)
      returns (incomplete: bool, rl: seq<MemoryObject>)
    requires WellTyped(p) && Width(p) > 0 && Layout(mos, Width(p)) && solver.models != {} && !solver.failed
    modifies solver
    ensures ListsSome(rl, mos, p, solver.models)
    ensures !incomplete ==> forall mo :: mo in rl <==> mo in mos && Feasible(mo, p, solver.models)
    ensures maxResolutions >= 2 ==> |rl| <= maxResolutions
    ensures incomplete ==> solver.failed || (maxResolutions >= 2 && |rl| == maxResolutions)
    ensures old(solver.budget) >= Queries(mos) ==> !solver.failed
    ensures old(solver.budget) >= Queries(mos) && maxResolutions < 2 ==> !incomplete
    ensures old(solver.budget) >= Queries(mos) && maxResolutions == 1 ==>
      (|rl| <= maxResolutions <==> Unambiguous(mos, p, solver.models))
  {
    hide Width, Fits, Contains, Feasible, AddressOf, Always, ToNat;
    if p.Const? {
      rl := [];
      var result := ResolveConstant(mos, Width(p), ToNat(p.bits));
      if result.Some? {
        rl := rl + [result.value];
      }
      incomplete := false;
      forall mo { FeasibleConstant(mo, p, solver.models); }
    } else {
      var verdict;
      verdict, rl := ResolveSymbolic(mos, solver, p, maxResolutions);
      incomplete := verdict.GiveUp?;
      assert mos[0..|mos|] == mos;
    }
    if !incomplete {
      CapKept(mos, rl, p, solver.models);
    }
  }

  lemma ReadFirst(arr: Array, a: Assignment)
    requires arr.constantValues == []
    ensures var p := Read(arr, NoUpdate, Const([false])); WellTyped(p) && Width(p) == 8 && Eval(p, a) == Lookup(a, arr, 0)
  {
    var i := Const([false]);
    assert WellTyped(i) && Eval(i, a) == [false] && ToNat([false]) == 0;
  }

  lemma TwoBytes(mos: seq<MemoryObject>)
    requires mos == [MemoryObject(0, 0, 1), MemoryObject(1, 1, 1)]
    ensures Layout(mos, 8)
  {
    assert Pow2(8) > 2 by { assert Pow2(8) == 4 * Pow2(6); }
    hide Pow2;
  }

  lemma OneMore(b: Bits)
    requires b != [] && b[0] && ToNat(b[1..]) == 0
    ensures ToNat(b) == 1
  {
  }

  /** An ambiguous address, which may lie in either of two objects. */
  lemma TwoFeasible(arr: Array, a: Assignment, b: Assignment, p: Expr, mos: seq<MemoryObject>)
    requires arr == Array("p", 1, []) && p == Read(arr, NoUpdate, Const([false]))
    requires a == map[arr := [ZERO_BYTE]] && b == map[arr := [[true, false, false, false, false, false, false, false]]]
    requires mos == [MemoryObject(0, 0, 1), MemoryObject(1, 1, 1)]
    ensures WellTyped(p) && Width(p) == 8 && Layout(mos, 8) && !Unambiguous(mos, p, {a, b})
  {
    hide Eval, EvalRead, Pow2, ToNat, WellTyped, Width, Layout;
    ReadFirst(arr, a);
    ReadFirst(arr, b);
    TwoBytes(mos);
    var zero, one := Eval(p, a), Eval(p, b);
    assert zero == Zeros(8) && one[0] && one[1..] == Zeros(7);
    ToNatZeros(8);
    ToNatZeros(7);
    assert ToNat(one) == 1 by { OneMore(one); }
    assert AddressOf(p, a) == 0 && AddressOf(p, b) == 1;
    assert Feasible(mos[0], p, {a, b});
    assert Feasible(mos[1], p, {a, b});
    assert mos[0] in mos && mos[1] in mos;
  }

  /** The cap of 1 is not kept: with every query answered, the list ends with two entries. */
  method CapOfOneFails() returns (incomplete: bool, rl: seq<MemoryObject>)
    ensures !incomplete && |rl| == 2
  {
    var arr := Array("p", 1, []);
    var p := Read(arr, NoUpdate, Const([false]));
    var a: Assignment, b: Assignment := map[arr := [ZERO_BYTE]],
      map[arr := [[true, false, false, false, false, false, false, false]]];
    var mos := [MemoryObject(0, 0, 1), MemoryObject(1, 1, 1)];
    TwoFeasible(arr, a, b, p, mos);
    hide WellTyped, Width, Layout, Feasible;
    var solver := new Solver({a, b}, Queries(mos));
    incomplete, rl := Resolve(mos, solver, p, 1);
    AtMostTwo(rl, mos);
  }

  /** A list of different objects is no longer than what it is drawn from. */
  lemma AtMostTwo(rl: seq<MemoryObject>, mos: seq<MemoryObject>)
    requires Distinct(rl) && |mos| == 2 && forall mo :: mo in rl ==> mo in mos
    ensures |rl| <= 2
  {
    forall i | 0 <= i < |rl| ensures rl[i] == mos[0] || rl[i] == mos[1] {
      assert rl[i] in mos;
    }
    if |rl| > 2 {
      TwoOfThree(rl[0], rl[1], rl[2], mos[0], mos[1]);
    }
  }

  lemma TwoOfThree(x: MemoryObject, y: MemoryObject, z: MemoryObject, m: MemoryObject, n: MemoryObject)
    requires (x == m || x == n) && (y == m || y == n) && (z == m || z == n)
    ensures x == y || y == z || x == z
  {
  }

  // ----- resolveOne

  /** A symbolic address: reports an object that may contain it if and only if there is one. */
  method ResolveOne(mos: seq<MemoryObject>, solver: Solver, p: Expr)
      returns (answered: bool, success: bool, result: Option<MemoryObject>)
    requires WellTyped(p) && Width(p) > 0 && Layout(mos, Width(p)) && solver.models != {}
    modifies solver
    ensures success == result.Some? && (answered || solver.failed)
    ensures !old(solver.failed) && old(solver.budget) >= Queries(mos) ==> answered
    ensures answered && success ==> result.value in mos && Feasible(result.value, p, solver.models)
    ensures answered && !success ==> forall i :: 0 <= i < |mos| ==> !Feasible(mos[i], p, solver.models)
  {
    hide Width, Fits, Feasible, AddressOf, Always, ToNat, Overlap;
    if p.Const? {
      result := ResolveConstant(mos, Width(p), ToNat(p.bits));
      answered, success := true, result.Some?;
      forall mo { FeasibleConstant(mo, p, solver.models); }
      return;
    }
    success, result := false, None;
    var cex;
    answered, cex := solver.GetValue(p);
    if !answered { return; }
    var example := ToNat(cex);
    var start := UpperBound(mos, Width(p), example);
    if start > 0 && example - mos[start - 1].address < mos[start - 1].size {
      FeasibleExample(mos[start - 1], p, cex, solver.models);
      return true, true, Some(mos[start - 1]);
    }
    var found;
    answered, found := FindDown(mos, start, solver, p);
    if answered && found.None? {
      answered, found := FindUp(mos, start, solver, p);
    }
    if answered {
      success, result := found.Some?, found;
    }
  }

  lemma FeasibleExample(mo: MemoryObject, p: Expr, cex: Bits, models: set<Assignment>)
    requires WellTyped(p) && Contains(mo, ToNat(cex)) && exists a :: a in models && cex == Eval(p, a)
    ensures Feasible(mo, p, models)
  {
    hide Eval, WellTyped;
    var a :| a in models && cex == Eval(p, a);
    assert Contains(mo, AddressOf(p, a));
  }

  method MayContain(mo: MemoryObject, solver: Solver, p: Expr) returns (ok: bool, r: bool)
    requires WellTyped(p) && Width(p) > 0 && Fits(mo, Width(p))
    modifies solver
    ensures solver.failed == (old(solver.failed) || !ok) && solver.Within(old(solver.budget), old(solver.failed), 1)
    ensures ok ==> (r <==> Feasible(mo, p, solver.models))
  {
    hide Eval, WellTyped, Width, BoundsCheck, Fits, Contains, Holds, AddressOf;
    forall a: Assignment {
      BoundsCheckSound(mo, p, a);
    }
    ok, r := solver.MayBeTrue(BoundsCheck(mo, p));
  }

  method FindDown(mos: seq<MemoryObject>, start: nat, solver: Solver, p: Expr)
      returns (answered: bool, result: Option<MemoryObject>)
    requires WellTyped(p) && Width(p) > 0 && Layout(mos, Width(p)) && start <= |mos|
    modifies solver
    ensures (old(solver.failed) || !answered ==> solver.failed) &&
      solver.Within(old(solver.budget), old(solver.failed), 4 * start)
    ensures answered && result.Some? ==> result.value in mos && Feasible(result.value, p, solver.models)
    ensures answered && result.None? ==> forall i :: 0 <= i < start ==> !Feasible(mos[i], p, solver.models)
  {
    hide WellTyped, Width, Fits, Contains, Feasible, AddressOf;
    var oi: nat := start;
    while oi != 0
      invariant oi <= start && solver.Within(old(solver.budget), old(solver.failed), 4 * (start - oi))
      invariant forall i :: oi <= i < start ==> !Feasible(mos[i], p, solver.models)
    {
      oi := oi - 1;
      var ok, mayBeTrue := MayContain(mos[oi], solver, p);
      if !ok { return false, None; }
      if mayBeTrue { return true, Some(mos[oi]); }
      var above;
      ok, above := IsAbove(mos[oi], solver, p);
      if !ok { return false, None; }
      if above {
        AboveExcludes(mos, oi, p, solver.models);
        break;
      }
    }
    return true, None;
  }

  method FindUp(mos: seq<MemoryObject>, start: nat, solver: Solver, p: Expr)
      returns (answered: bool, result: Option<MemoryObject>)
    requires WellTyped(p) && Width(p) > 0 && Layout(mos, Width(p)) && start <= |mos|
    modifies solver
    ensures (old(solver.failed) || !answered ==> solver.failed) &&
      solver.Within(old(solver.budget), old(solver.failed), 4 * (|mos| - start))
    ensures answered && result.Some? ==> result.value in mos && Feasible(result.value, p, solver.models)
    ensures answered && result.None? ==> forall i :: start <= i < |mos| ==> !Feasible(mos[i], p, solver.models)
  {
    hide WellTyped, Width, Fits, Contains, Feasible, AddressOf;
    var oi: nat := start;
    while oi != |mos|
      invariant start <= oi <= |mos| && solver.Within(old(solver.budget), old(solver.failed), 4 * (oi - start))
      invariant forall i :: start <= i < oi ==> !Feasible(mos[i], p, solver.models)
    {
      var ok, below := IsBelow(mos[oi], solver, p);
      if !ok { return false, None; }
      if below {
        BelowExcludes(mos, oi, p, solver.models);
        break;
      }
      var mayBeTrue;
      ok, mayBeTrue := MayContain(mos[oi], solver, p);
      if !ok { return false, None; }
      if mayBeTrue { return true, Some(mos[oi]); }
      oi := oi + 1;
    }
    return true, None;
  }

  // ----- in an address space

  /** The objects of an address space fit and do not overlap. */
  ghost predicate Disjoint(mos: set<MemoryObject>, w: nat) {
    (forall mo :: mo in mos ==> Fits(mo, w)) && forall m, n :: m in mos && n in mos && m != n ==> !Overlap(m, n)
  }

  lemma DistinctAddresses(mos: set<MemoryObject>, w: nat, m: MemoryObject, n: MemoryObject)
    requires Disjoint(mos, w) && m in mos && n in mos && m != n
    ensures m.address != n.address
  {
    assert Contains(m, m.address) && Contains(n, n.address);
  }

  /** The object that starts lowest. */
  method Lowest(mos: set<MemoryObject>, w: nat) returns (low: MemoryObject)
    requires mos != {} && Disjoint(mos, w)
    ensures low in mos && forall mo :: mo in mos && mo != low ==> low.address < mo.address
  {
    hide Fits, Overlap;
    low :| low in mos;
    var todo := mos - {low};
    while todo != {}
      invariant todo <= mos - {low} && low in mos
      invariant forall mo :: mo in mos - todo && mo != low ==> low.address < mo.address
      decreases |todo|
    {
      var mo :| mo in todo;
      DistinctAddresses(mos, w, mo, low);
      todo := todo - {mo};
      if mo.address < low.address {
        low := mo;
      }
    }
  }

  lemma LayoutGrows(mos: seq<MemoryObject>, low: MemoryObject, keys: set<MemoryObject>, w: nat)
    requires Layout(mos, w) && Disjoint(keys, w) && low in keys
    requires forall m :: m in mos ==> m in keys && m.address < low.address
    ensures Layout(mos + [low], w)
  {
    hide Fits, Overlap;
    var all := mos + [low];
    forall i | 0 <= i < |all| ensures Fits(all[i], w) {
      assert all[i] in keys;
    }
    forall i, j | 0 <= i < j < |all| ensures all[i].address < all[j].address && !Overlap(all[i], all[j]) {
      assert all[i] == mos[i] && mos[i] in mos;
      if j < |mos| {
        assert all[j] == mos[j];
      }
    }
  }

  /** The order in which the map iterates. */
  method InAddressOrder(keys: set<MemoryObject>, w: nat) returns (mos: seq<MemoryObject>)
    requires Disjoint(keys, w)
    ensures Layout(mos, w) && |mos| == |keys| && forall mo :: mo in mos <==> mo in keys
  {
    hide Fits, Overlap;
    mos := [];
    var todo := keys;
    while todo != {}
      invariant todo <= keys && Layout(mos, w) && |mos| + |todo| == |keys|
      invariant forall mo :: mo in mos <==> mo in keys - todo
      invariant forall m, n :: m in mos && n in todo ==> m.address < n.address
      decreases |todo|
    {
      var low := Lowest(todo, w);
      LayoutGrows(mos, low, keys, w);
      mos, todo := mos + [low], todo - {low};
    }
  }

  /** resolve on an address space: the pairs of exactly the bound objects that the address may lie in. */
  method ResolveIn(space: AddressSpace, solver: Solver, p: Expr, maxResolutions: nat)
    returns (incomplete: bool, rl: seq<(MemoryObject, ObjectState)>)
    requires WellTyped(p) && Width(p) > 0 && Disjoint(space.objects.Keys, Width(p)) && solver.models != {} && !solver.failed
    modifies solver
    ensures forall i :: 0 <= i < |rl| ==>
      rl[i].0 in space.objects && rl[i].1 == space.objects[rl[i].0] && Feasible(rl[i].0, p, solver.models)
    ensures forall i, j :: 0 <= i < j < |rl| ==> rl[i].0 != rl[j].0
    ensures !incomplete ==> forall mo :: mo in space.objects && Feasible(mo, p, solver.models) ==> (mo, space.objects[mo]) in rl
    ensures maxResolutions >= 2 ==> |rl| <= maxResolutions
    ensures incomplete ==> solver.failed || (maxResolutions >= 2 && |rl| == maxResolutions)
    ensures old(solver.budget) >= 1 + 4 * |space.objects| ==> !solver.failed
  {
    hide WellTyped, Width, Layout, Feasible;
    var mos := InAddressOrder(space.objects.Keys, Width(p));
    var list;
    incomplete, list := Resolve(mos, solver, p, maxResolutions);
    rl := [];
    while |rl| < |list|
      invariant |rl| <= |list| && forall i :: 0 <= i < |rl| ==>
        rl[i].0 == list[i] && list[i] in space.objects && rl[i].1 == space.objects[list[i]]
    {
      var mo := list[|rl|];
      assert mo in list;
      rl := rl + [(mo, space.objects[mo])];
    }
    forall mo | !incomplete && mo in space.objects && Feasible(mo, p, solver.models) ensures (mo, space.objects[mo]) in rl {
      var i :| 0 <= i < |list| && list[i] == mo;
      assert rl[i] == (mo, space.objects[mo]);
    }
  }
}
