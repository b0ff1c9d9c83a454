/** KLEE's path constraints: a new constraint is simplified by the equalities already known, and a new equality with a
    constant rewrites the constraints already there. */
module Constraints {
  import opened Expressions
  import opened ExprBuilder
  import opened Constructors

  predicate IsBool(e: Expr) { WellTyped(e) && Width(e) == BOOL }

  predicate AreBool(cs: seq<Expr>) { forall c :: c in cs ==> IsBool(c) }

  function SetOf<T>(cs: seq<T>): set<T> { set c | c in cs }

  predicate Satisfied(c: Expr, a: Assignment) { IsBool(c) && Holds(c, a) }

  /** A path constraint: every member is true. */
  predicate AllHold(cs: set<Expr>, a: Assignment) { forall c :: c in cs ==> Satisfied(c, a) }

  predicate PathHolds(cs: seq<Expr>, a: Assignment) { AllHold(SetOf(cs), a) }

  lemma PathHoldsOne(cs: seq<Expr>, e: Expr, a: Assignment)
    ensures PathHolds(cs + [e], a) <==> PathHolds(cs, a) && Satisfied(e, a)
  {
    hide Satisfied;
    assert SetOf(cs + [e]) == SetOf(cs) + {e};
  }

  predicate FitFor(e: Expr, f: Expr) { WellTyped(f) && Width(f) == Width(e) }

  // ----- replacing one expression by another

  /** ExprReplaceVisitor: `src` becomes `dst` on the way down, and again where a rebuilt node comes out as `src`. */
  function Replace(e: Expr, src: Expr, dst: Expr): (r: Expr)
    requires WellTyped(e) && WellTyped(src) && FitFor(src, dst)
    ensures FitFor(e, r)
    decreases e, 1
  {
    if e.Const? then e
    else if e == src then dst
    else
      var kids := ReplaceKids(e, src, dst);
      var f := if kids == Kids(e) then e else Rebuild(e, kids);
      if !f.Const? && f == src then dst else f
  }

  function ReplaceKids(e: Expr, src: Expr, dst: Expr): (kids: seq<Expr>)
    requires WellTyped(e) && WellTyped(src) && FitFor(src, dst)
    ensures FitsKids(e, kids)
    decreases e, 0
  {
    seq(|Kids(e)|, i requires 0 <= i < |Kids(e)| => Replace(Kids(e)[i], src, dst))
  }

  /** Where both expressions are equal, replacing one by the other changes no value. */
  lemma {:induction false} ReplaceSound(e: Expr, src: Expr, dst: Expr, a: Assignment)
    requires WellTyped(e) && Same(src, dst, a)
    ensures FitFor(src, dst) && Same(e, Replace(e, src, dst), a)
    decreases e
  {
    hide Same, Rebuild, WellTyped, Width, Kids;
    SameTyped(src, dst, a);
    SameItself(e, a);
    if !e.Const? && e != src {
      var kids := ReplaceKids(e, src, dst);
      forall i | 0 <= i < |kids| ensures Same(Kids(e)[i], kids[i], a) {
        ReplaceSound(Kids(e)[i], src, dst, a);
      }
      RebuildSound(e, kids, a);
      if Rebuild(e, kids) == src {
        SameTrans(e, src, dst, a);
      }
    }
  }

  lemma SameTyped(e: Expr, f: Expr, a: Assignment)
    requires Same(e, f, a)
    ensures WellTyped(e) && FitFor(e, f)
  {
  }

  lemma SameTrans(e: Expr, f: Expr, g: Expr, a: Assignment)
    requires Same(e, f, a) && Same(f, g, a)
    ensures Same(e, g, a)
  {
  }

  // ----- simplifying by what is known

  predicate IsEquation(c: Expr) { c.Bin? && c.op.Eq? && c.l.Const? }

  /** What a constraint says: an equation with a constant on the left gives the value of its right side, any other
      constraint is true itself. */
  function Known(c: Expr): (Expr, Expr) {
    if IsEquation(c) then (c.r, c.l) else (c, TRUE)
  }

  /** The value that the constraints give an expression; the first that does counts. */
  function Lookup(cs: seq<Expr>, e: Expr): (r: Expr)
    requires AreBool(cs) && WellTyped(e)
    ensures FitFor(e, r)
  {
    assert cs != [] ==> cs[0] in cs;
    if cs == [] then e else if Known(cs[0]).0 == e then Known(cs[0]).1 else Lookup(cs[1..], e)
  }

  lemma {:induction false} LookupSound(cs: seq<Expr>, e: Expr, a: Assignment)
    requires AreBool(cs) && PathHolds(cs, a) && WellTyped(e)
    ensures Same(e, Lookup(cs, e), a)
  {
    if cs != [] {
      KnownSound(cs[0], a);
      if Known(cs[0]).0 != e {
        LookupSound(cs[1..], e, a);
      }
    }
  }

  lemma KnownSound(c: Expr, a: Assignment)
    requires Satisfied(c, a)
    ensures Same(Known(c).0, Known(c).1, a)
  {
    assert Eval(c, a) == [Eval(c, a)[0]];
  }

  /** The first constraint that gives an expression a value gives it this one. */
  lemma {:induction false} LookupFirst(cs: seq<Expr>, k: nat, e: Expr)
    requires AreBool(cs) && WellTyped(e) && k < |cs| && Known(cs[k]).0 == e && forall j :: 0 <= j < k ==> Known(cs[j]).0 != e
    ensures Lookup(cs, e) == Known(cs[k]).1
    decreases k
  {
    if k > 0 {
      LookupFirst(cs[1..], k - 1, e);
    }
  }

  /** ExprReplaceVisitor2: bottom up; a node that had to be rebuilt is visited again, `fuel` such visits deep. */
  function Simplify(cs: seq<Expr>, e: Expr, fuel: nat): (r: Expr)
    requires AreBool(cs) && WellTyped(e)
    ensures FitFor(e, r)
    decreases fuel, e, 1
  {
    if e.Const? then e
    else
      var kids := SimplifyKids(cs, e, fuel);
      var f := if kids == Kids(e) then e
        else if fuel == 0 then Rebuild(e, kids)
        else Simplify(cs, Rebuild(e, kids), fuel - 1);
      if f.Const? then f else Lookup(cs, f)
  }

  function SimplifyKids(cs: seq<Expr>, e: Expr, fuel: nat): (kids: seq<Expr>)
    requires AreBool(cs) && WellTyped(e)
    ensures FitsKids(e, kids)
    decreases fuel, e, 0
  {
    seq(|Kids(e)|, i requires 0 <= i < |Kids(e)| => Simplify(cs, Kids(e)[i], fuel))
  }

  /** Where the known constraints hold, simplifying changes no value. */
  lemma {:induction false} SimplifySound(cs: seq<Expr>, e: Expr, fuel: nat, a: Assignment)
    requires AreBool(cs) && PathHolds(cs, a) && WellTyped(e)
    ensures Same(e, Simplify(cs, e, fuel), a)
    decreases fuel, e
  {
    hide Same, Rebuild, Lookup, WellTyped, Width, PathHolds, Kids;
    SameItself(e, a);
    if !e.Const? {
      var kids := SimplifyKids(cs, e, fuel);
      forall i | 0 <= i < |kids| ensures Same(Kids(e)[i], kids[i], a) {
        SimplifySound(cs, Kids(e)[i], fuel, a);
      }
      RebuildSound(e, kids, a);
      if fuel > 0 {
        SimplifySound(cs, Rebuild(e, kids), fuel - 1, a);
        SameTrans(e, Rebuild(e, kids), Simplify(cs, Rebuild(e, kids), fuel - 1), a);
      }
      var f := if kids == Kids(e) then e else if fuel == 0 then Rebuild(e, kids) else Simplify(cs, Rebuild(e, kids), fuel - 1);
      LookupSound(cs, f, a);
      SameTrans(e, f, Lookup(cs, f), a);
    }
  }

  /** A byte of an array that an equation among the constraints has fixed becomes the constant, and a constraint that is
      known already becomes true, unless a part of it is simplified first. */
  lemma KnownIsUsed(cs: seq<Expr>, k: nat, e: Expr, fuel: nat)
    requires AreBool(cs) && WellTyped(e) && !e.Const?
    requires (e.Read? && e.index.Const?) || SimplifyKids(cs, e, fuel) == Kids(e)
    requires k < |cs| && forall j :: 0 <= j < k ==> Known(cs[j]).0 != e
    ensures IsEquation(cs[k]) && cs[k].r == e ==> Simplify(cs, e, fuel) == cs[k].l
    ensures !IsEquation(cs[k]) && cs[k] == e ==> Simplify(cs, e, fuel) == TRUE
  {
    assert SimplifyKids(cs, e, fuel) == Kids(e);
    if Known(cs[k]).0 == e {
      LookupFirst(cs, k, e);
    }
  }

  // ----- adding constraints

  /** addConstraintInternal: a conjunction is split, the constant true is dropped, and an equation first rewrites the
      constraints there are. The constant false, on which the code stops, is kept. */
  function AddInternal(cs: seq<Expr>, e: Expr, fuel: nat): (r: seq<Expr>)
    requires AreBool(cs) && IsBool(e)
    ensures AreBool(r)
    decreases fuel, 1, e
  {
    if e.Const? then (if e.bits[0] then cs else cs + [e])
    else if e.Bin? && e.op.And? then AddInternal(AddInternal(cs, e.l, fuel), e.r, fuel)
    else if IsEquation(e) then Rewrite(cs, e.r, e.l, fuel) + [e]
    else cs + [e]
  }

  /** Rewriting makes another constraint of `c`. */
  predicate Changes(c: Expr, src: Expr, dst: Expr) {
    IsBool(c) && WellTyped(src) && FitFor(src, dst) && Replace(c, src, dst) != c
  }

  /** rewriteConstraints: those that change are added anew, so as to enable further rewriting, `fuel` additions deep. */
  function Rewrite(cs: seq<Expr>, src: Expr, dst: Expr, fuel: nat): (r: seq<Expr>)
    requires AreBool(cs) && WellTyped(src) && FitFor(src, dst)
    ensures AreBool(r)
    decreases fuel, 0, |cs|
  {
    if cs == [] then []
    else
      var c := cs[|cs| - 1];
      assert c in cs;
      var done := Rewrite(cs[..|cs| - 1], src, dst, fuel);
      var n := Replace(c, src, dst);
      if n == c || fuel == 0 then done + [n] else AddInternal(done, n, fuel - 1)
  }

  /** Adding a constraint means its conjunction with those there are. */
  lemma {:induction false} AddInternalHolds(cs: seq<Expr>, e: Expr, fuel: nat, a: Assignment)
    requires AreBool(cs) && IsBool(e)
    ensures PathHolds(AddInternal(cs, e, fuel), a) <==> PathHolds(cs, a) && Satisfied(e, a)
    decreases fuel, 1, e
  {
    hide PathHolds, Rewrite, Satisfied;
    if e.Bin? && e.op.And? {
      AddInternalHolds(cs, e.l, fuel, a);
      AddInternalHolds(AddInternal(cs, e.l, fuel), e.r, fuel, a);
      ConjunctionSplits(e.l, e.r, a);
    } else if e.Const? {
      PathHoldsOne(cs, e, a);
      ConstSatisfied(e, a);
    } else if IsEquation(e) {
      if Satisfied(e, a) {
        KnownSound(e, a);
        RewriteHolds(cs, e.r, e.l, fuel, a);
      }
      PathHoldsOne(Rewrite(cs, e.r, e.l, fuel), e, a);
    } else {
      PathHoldsOne(cs, e, a);
    }
  }

  lemma ConjunctionSplits(l: Expr, r: Expr, a: Assignment)
    requires IsBool(Bin(And, l, r))
    ensures Satisfied(Bin(And, l, r), a) <==> Satisfied(l, a) && Satisfied(r, a)
  {
  }

  lemma ConstSatisfied(e: Expr, a: Assignment)
    requires IsBool(e) && e.Const?
    ensures Satisfied(e, a) <==> e.bits[0]
  {
  }

  /** Where the equality holds, the rewritten constraints mean what the old ones did. */
  lemma {:induction false} RewriteHolds(cs: seq<Expr>, src: Expr, dst: Expr, fuel: nat, a: Assignment)
    requires AreBool(cs) && Same(src, dst, a)
    ensures FitFor(src, dst) && (PathHolds(Rewrite(cs, src, dst, fuel), a) <==> PathHolds(cs, a))
    decreases fuel, 0, |cs|
  {
    hide PathHolds, Satisfied, Same, Replace, AddInternal, WellTyped, Width;
    SameTyped(src, dst, a);
    if cs != [] {
      var rest, c := cs[..|cs| - 1], cs[|cs| - 1];
      assert cs == rest + [c] && c in cs;
      RewriteHolds(rest, src, dst, fuel, a);
      ReplaceSound(c, src, dst, a);
      var n := Replace(c, src, dst);
      SatisfiedSame(c, n, a);
      PathHoldsOne(rest, c, a);
      PathHoldsOne(Rewrite(rest, src, dst, fuel), n, a);
      if fuel > 0 {
        AddInternalHolds(Rewrite(rest, src, dst, fuel), n, fuel - 1, a);
      }
    }
  }

  lemma SatisfiedSame(e: Expr, f: Expr, a: Assignment)
    requires IsBool(e) && Same(e, f, a)
    ensures Satisfied(e, a) <==> Satisfied(f, a)
  {
  }

  /** addConstraint: simplified by what is known, then added. */
  function Added(cs: seq<Expr>, e: Expr, fuel: nat): (r: seq<Expr>)
    requires AreBool(cs) && IsBool(e)
    ensures AreBool(r)
  {
    AddInternal(cs, Simplify(cs, e, fuel), fuel)
  }

  /** Neither simplifying nor rewriting changes what a path means, however deep they go. */
  lemma AddConstraintHolds(cs: seq<Expr>, e: Expr, fuel: nat, a: Assignment)
    requires AreBool(cs) && IsBool(e)
    ensures PathHolds(Added(cs, e, fuel), a) <==> PathHolds(cs, a) && Satisfied(e, a)
  {
    hide PathHolds, Satisfied, Simplify, AddInternal, Same;
    AddInternalHolds(cs, Simplify(cs, e, fuel), fuel, a);
    if PathHolds(cs, a) {
      SimplifySound(cs, e, fuel, a);
      SatisfiedSame(e, Simplify(cs, e, fuel), a);
    }
  }

  /** The code stops on a constraint that came out as false; where some assignment satisfies the path and the new
      constraint, none does. */
  lemma NeverFalse(cs: seq<Expr>, e: Expr, fuel: nat, a: Assignment)
    requires AreBool(cs) && IsBool(e) && PathHolds(cs, a) && Satisfied(e, a)
    ensures FALSE !in Added(cs, e, fuel)
  {
    hide Added;
    AddConstraintHolds(cs, e, fuel, a);
    assert !Satisfied(FALSE, a);
  }

  /** One more constraint rewritten. */
  lemma RewriteOne(cs: seq<Expr>, i: nat, src: Expr, dst: Expr, fuel: nat)
    requires AreBool(cs) && i < |cs| && WellTyped(src) && FitFor(src, dst)
    ensures IsBool(cs[i])
    ensures var done, n := Rewrite(cs[..i], src, dst, fuel), Replace(cs[i], src, dst);
      Rewrite(cs[..i + 1], src, dst, fuel) == if n == cs[i] || fuel == 0 then done + [n] else AddInternal(done, n, fuel - 1)
  {
    assert cs[..i + 1][..i] == cs[..i] && cs[i] in cs;
  }

  lemma RewriteNone(cs: seq<Expr>, src: Expr, dst: Expr, fuel: nat)
    requires AreBool(cs) && WellTyped(src) && FitFor(src, dst)
    ensures Rewrite(cs[..0], src, dst, fuel) == []
  {
  }

  class ConstraintManager {
    var constraints: seq<Expr>

    ghost predicate Valid()
      reads this
    {
      AreBool(constraints)
    }

    constructor ()
      ensures Valid() && constraints == []
    {
      constraints := [];
    }

    method RewriteConstraints(src: Expr, dst: Expr, fuel: nat) returns (changed: bool)
      requires Valid() && WellTyped(src) && FitFor(src, dst)
      modifies this
      ensures Valid() && constraints == Rewrite(old(constraints), src, dst, fuel)
      ensures changed <==> exists k :: 0 <= k < |old(constraints)| && Changes(old(constraints)[k], src, dst)
      decreases fuel, 0
    {
      hide Replace, WellTyped, Width, Rewrite, AddInternal;
      var before := constraints;
      RewriteNone(before, src, dst, fuel);
      constraints, changed := [], false;
      for i := 0 to |before|
        invariant Valid() && constraints == Rewrite(before[..i], src, dst, fuel)
        invariant changed <==> exists k :: 0 <= k < i && Changes(before[k], src, dst)
      {
        RewriteOne(before, i, src, dst, fuel);
        var c := before[i];
        var e := Replace(c, src, dst);
        if e != c {
          if fuel == 0 {
            constraints := constraints + [e];
          } else {
            AddConstraintInternal(e, fuel - 1);
          }
          changed := true;
        } else {
          constraints := constraints + [c];
        }
      }
      assert before[..|before|] == before;
    }

    method AddConstraintInternal(e: Expr, fuel: nat)
      requires Valid() && IsBool(e)
      modifies this
      ensures Valid() && constraints == AddInternal(old(constraints), e, fuel)
      decreases fuel, 1, e
    {
      hide Rewrite;
      if e.Const? {
        if !e.bits[0] { constraints := constraints + [e]; }
      } else if e.Bin? && e.op.And? {
        AddConstraintInternal(e.l, fuel);
        AddConstraintInternal(e.r, fuel);
      } else {
        if IsEquation(e) {
          var _ := RewriteConstraints(e.r, e.l, fuel);
        }
        constraints := constraints + [e];
      }
    }

    method AddConstraint(e: Expr, fuel: nat)
      requires Valid() && IsBool(e)
      modifies this
      ensures Valid()
      ensures constraints == Added(old(constraints), e, fuel)
      ensures forall a: Assignment :: PathHolds(constraints, a) <==> PathHolds(old(constraints), a) && Satisfied(e, a)
    {
      hide PathHolds, Satisfied, Simplify, AddInternal;
      forall a: Assignment {
        AddConstraintHolds(constraints, e, fuel, a);
      }
      AddConstraintInternal(Simplify(constraints, e, fuel), fuel);
    }
  }
}
