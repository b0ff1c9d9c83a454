/** The control dependence graph of a function, built from its postdominator tree. */
module ControlDependence {
  import opened Wrappers
  import opened Graphs

  /** Basic blocks by number, the entry first. A conditional block branches to its first successor if true. */
  datatype Cfg = Cfg(succ: seq<seq<nat>>, conditional: seq<bool>)

  predicate CfgOk(c: Cfg) {
    && 0 < |c.succ| == |c.conditional|
    && (forall i, j :: 0 <= i < |c.succ| && 0 <= j < |c.succ[i]| ==> c.succ[i][j] < |c.succ|)
    && (forall i :: 0 <= i < |c.succ| && c.conditional[i] ==> |c.succ[i]| == 2)
  }

  const ENTRY: nat := 0

  ghost function FlowGraph(c: Cfg): (g: Graph)
    ensures |g| == |c.succ| && forall a: nat, b: nat :: Edge(g, a, b) <==> a < |c.succ| && b in c.succ[a]
  {
    seq(|c.succ|, i requires 0 <= i < |c.succ| => set b: nat | b in c.succ[i])
  }

  /** A path from a block to one without successors. */
  ghost predicate ExitPath(c: Cfg, p: seq<nat>, a: nat) {
    Path(FlowGraph(c), p) && p[0] == a && c.succ[p[|p| - 1]] == []
  }

  ghost predicate PostDominates(c: Cfg, b: nat, a: nat) { b < |c.succ| && forall p :: ExitPath(c, p, a) ==> b in p }

  datatype EdgeType = TRUE | FALSE | OTHER

  /** getEdgeType: its assertion that the blocks are connected cannot fail here. */
  function GetEdgeType(c: Cfg, a: nat, b: nat): EdgeType
    requires CfgOk(c) && a < |c.succ| && b in c.succ[a]
  {
    if !c.conditional[a] then OTHER else if c.succ[a][0] == b then TRUE else FALSE
  }

  /** `n` is control dependent on the branch from `a` of this kind: some successor taken that way leads to `n` on every
      path, but `a` itself does not. */
  ghost predicate ControlDependent(c: Cfg, n: nat, a: nat, kind: EdgeType)
    requires CfgOk(c)
  {
    a < |c.succ| && exists i :: 0 <= i < |c.succ[a]| && GetEdgeType(c, a, c.succ[a][i]) == kind && DependentBy(c, n, a, i)
  }

  ghost predicate DependentBy(c: Cfg, n: nat, a: nat, i: nat)
    requires a < |c.succ| && i < |c.succ[a]|
  {
    PostDominates(c, n, c.succ[a][i]) && !(n != a && PostDominates(c, n, a))
  }

  // ----- the postdominator tree

  /** The immediate postdominator of every block; none below the virtual exit. Levels fall towards the root. */
  datatype PostDomTree = PostDomTree(idom: seq<Option<nat>>, level: seq<nat>)

  predicate TreeOk(t: PostDomTree) {
    |t.idom| == |t.level| && forall a :: 0 <= a < |t.idom| && t.idom[a].Some? ==>
      t.idom[a].value < |t.idom| && t.level[t.idom[a].value] < t.level[a]
  }

  /** A block and all its tree ancestors. */
  function Chain(t: PostDomTree, a: nat): (r: seq<nat>)
    requires TreeOk(t) && a < |t.idom|
    ensures r != [] && r[0] == a
    ensures forall x :: x in r ==> x < |t.idom| && (x == a || t.level[x] < t.level[a])
    decreases t.level[a]
  {
    [a] + if t.idom[a].Some? then Chain(t, t.idom[a].value) else []
  }

  /** The tree says what the paths say. */
  ghost predicate IsPostDomTree(c: Cfg, t: PostDomTree) {
    && TreeOk(t) && |t.idom| == |c.succ|
    && forall a, b :: 0 <= a < |c.succ| && 0 <= b < |c.succ| ==> (b in Chain(t, a) <==> PostDominates(c, b, a))
  }

  lemma {:induction false} ChainTransitive(t: PostDomTree, a: nat, b: nat)
    requires TreeOk(t) && a < |t.idom| && b in Chain(t, a)
    ensures forall x :: x in Chain(t, b) ==> x in Chain(t, a)
    decreases t.level[a]
  {
    if b != a {
      ChainTransitive(t, t.idom[a].value, b);
    }
  }

  lemma ChainAntisymmetric(t: PostDomTree, a: nat, b: nat)
    requires TreeOk(t) && a < |t.idom| && b < |t.idom| && b in Chain(t, a) && a in Chain(t, b)
    ensures a == b
  {
  }

  /** findNearestCommonDominator: the first of `b`'s ancestors that is one of `a`'s. */
  function NearestCommon(t: PostDomTree, a: nat, b: nat): (r: Option<nat>)
    requires TreeOk(t) && a < |t.idom| && b < |t.idom|
    ensures r.Some? ==> r.value in Chain(t, a) && r.value in Chain(t, b)
    ensures r.None? ==> forall x :: x in Chain(t, b) ==> x !in Chain(t, a)
    decreases t.level[b]
  {
    if b in Chain(t, a) then Some(b) else if t.idom[b].None? then None else NearestCommon(t, a, t.idom[b].value)
  }

  /** What the code adds for one edge. */
  ghost predicate Added(t: PostDomTree, n: nat, a: nat, b: nat)
    requires TreeOk(t) && a < |t.idom| && b < |t.idom|
  {
    n in Chain(t, b) && (n == a || n !in Chain(t, a))
  }

  /** If the edge leads to another ancestor there is nothing to add. */
  lemma NothingAdded(t: PostDomTree, a: nat, b: nat)
    requires TreeOk(t) && a < |t.idom| && b < |t.idom| && a != b && b in Chain(t, a)
    ensures forall n: nat :: !Added(t, n, a, b)
  {
    ChainTransitive(t, a, b);
    forall n: nat ensures !Added(t, n, a, b) {
      if n == a && n in Chain(t, b) {
        ChainAntisymmetric(t, a, b);
      }
    }
  }

  lemma {:induction false} NearestIsSelf(t: PostDomTree, a: nat, b: nat)
    requires TreeOk(t) && a < |t.idom| && b < |t.idom| && a in Chain(t, b)
    ensures NearestCommon(t, a, b) == Some(a)
    decreases t.level[b]
  {
    if b in Chain(t, a) {
      ChainAntisymmetric(t, a, b);
    } else {
      NearestIsSelf(t, a, t.idom[b].value);
    }
  }

  // ----- the graph

  /** A child of a node on one of its three kinds of edges. */
  datatype Link = Link(parent: nat, kind: EdgeType, child: nat)

  lemma PostDominatorIsBlock(c: Cfg, n: nat, a: nat)
    ensures PostDominates(c, n, a) ==> n < |c.succ|
  {
  }

  class ControlDependenceGraph {
    const cfg: Cfg
    const pdt: PostDomTree
    // nodes are numbered like their blocks; the root comes after them and has no block
    var trueChildren: seq<set<nat>>
    var falseChildren: seq<set<nat>>
    var otherChildren: seq<set<nat>>
    var parents: seq<set<nat>>
    ghost var links: set<Link>

    function Root(): nat { |cfg.succ| }

    function Children(kind: EdgeType): seq<set<nat>>
      reads this
    {
      match kind case TRUE => trueChildren case FALSE => falseChildren case OTHER => otherChildren
    }

    ghost predicate LinksTo(p: nat, n: nat)
      reads this
    {
      exists kind :: Link(p, kind, n) in links
    }

    /** The child sets are what `links` says, and parents mirror children. */
    ghost predicate Valid()
      reads this
    {
      && CfgOk(cfg) && IsPostDomTree(cfg, pdt)
      && (forall l :: l in links ==> l.parent <= Root() && l.child < Root())
      && ChildrenMatch() && ParentsMatch()
    }

    ghost predicate ChildrenMatch()
      reads this
    {
      Sized() && forall p: nat, kind, n: nat :: p <= Root() ==> (n in Children(kind)[p] <==> Link(p, kind, n) in links)
    }

    ghost predicate ParentsMatch()
      reads this
    {
      Sized() && forall n: nat, p: nat :: n <= Root() ==> (p in parents[n] <==> LinksTo(p, n))
    }

    predicate Sized()
      reads this
    {
      |trueChildren| == |falseChildren| == |otherChildren| == |parents| == Root() + 1
    }

    constructor (cfg: Cfg, pdt: PostDomTree)
      requires CfgOk(cfg) && IsPostDomTree(cfg, pdt)
      ensures Valid() && this.cfg == cfg && this.pdt == pdt && links == {}
    {
      this.cfg, this.pdt := cfg, pdt;
      trueChildren := seq(|cfg.succ| + 1, _ => {});
      falseChildren := seq(|cfg.succ| + 1, _ => {});
      otherChildren := seq(|cfg.succ| + 1, _ => {});
      parents := seq(|cfg.succ| + 1, _ => {});
      links := {};
    }

    lemma TreeFits()
      requires Valid()
      ensures TreeOk(pdt) && |pdt.idom| == |cfg.succ| && CfgOk(cfg)
      ensures forall i, j :: 0 <= i < |cfg.succ| && 0 <= j < |cfg.succ[i]| ==> cfg.succ[i][j] < |cfg.succ|
    {
    }

    /** addTrue, addFalse or addOther */
    method AddChild(p: nat, kind: EdgeType, n: nat)
      requires Sized() && p <= Root()
      modifies this`trueChildren, this`falseChildren, this`otherChildren
      ensures Sized() && forall k :: Children(k) == if k == kind then old(Children(k))[p := old(Children(k))[p] + {n}]
        else old(Children(k))
    {
      match kind {
        case TRUE => trueChildren := trueChildren[p := trueChildren[p] + {n}];
        case FALSE => falseChildren := falseChildren[p := falseChildren[p] + {n}];
        case OTHER => otherChildren := otherChildren[p := otherChildren[p] + {n}];
      }
    }

    /** addParent asserts that the node is a child already. */
    method AddParent(n: nat, p: nat)
      requires Sized() && p <= Root() && n <= Root() && exists kind :: n in Children(kind)[p]
      modifies this`parents
      ensures Sized() && parents == old(parents)[n := old(parents)[n] + {p}]
    {
      parents := parents[n := parents[n] + {p}];
    }

    twostate lemma ParentsStillMatch(new p: nat, new kind: EdgeType, new n: nat)
      requires old(ParentsMatch()) && Sized() && n <= Root()
      requires links == old(links) + {Link(p, kind, n)} && parents == old(parents)[n := old(parents)[n] + {p}]
      ensures ParentsMatch()
    {
      assert Link(p, kind, n) in links;
      forall m: nat, q: nat | m <= Root() ensures q in parents[m] <==> LinksTo(q, m) {
        assert q != p || m != n ==> (LinksTo(q, m) <==> old(LinksTo(q, m)));
      }
    }

    method AddLink(p: nat, kind: EdgeType, n: nat)
      requires Valid() && p <= Root() && n < Root()
      modifies this
      ensures Valid() && links == old(links) + {Link(p, kind, n)}
    {
      hide CfgOk, IsPostDomTree, ParentsMatch, LinksTo;
      AddChild(p, kind, n);
      assert n in Children(kind)[p];
      AddParent(n, p);
      links := links + {Link(p, kind, n)};
      ParentsStillMatch(p, kind, n);
    }

    /** What the edge number `i` of block `a` contributes. */
    ghost predicate LinkBy(l: Link, a: nat, i: nat)
      requires CfgOk(cfg) && TreeOk(pdt) && |pdt.idom| == |cfg.succ| && a < |cfg.succ| && i < |cfg.succ[a]|
    {
      l.parent == a && l.kind == GetEdgeType(cfg, a, cfg.succ[a][i]) && Added(pdt, l.child, a, cfg.succ[a][i])
    }

    /** One successor edge of computeDependencies. */
    method AddEdge(a: nat, i: nat)
      requires Valid() && a < |cfg.succ| && i < |cfg.succ[a]|
      modifies this
      ensures Valid() && forall l :: l in links <==> l in old(links) || LinkBy(l, a, i)
    {
      TreeFits();
      hide Valid, CfgOk, IsPostDomTree;
      var b := cfg.succ[a][i];
      if a != b && b in Chain(pdt, a) {
        NothingAdded(pdt, a, b);
        return;
      }
      var nearest := NearestCommon(pdt, a, b);
      var kind := GetEdgeType(cfg, a, b);
      if nearest == Some(a) {
        AddLink(a, kind, a);
      }
      AddAncestors(a, b, kind, nearest);
      if a in Chain(pdt, b) {
        NearestIsSelf(pdt, a, b);
      }
    }

    /** The walk from a block up to its nearest common ancestor with `a`. */
    method AddAncestors(a: nat, b: nat, kind: EdgeType, nearest: Option<nat>)
      requires Valid() && a < |cfg.succ| && b < |cfg.succ| && TreeOk(pdt) && |pdt.idom| == |cfg.succ| &&
        nearest == NearestCommon(pdt, a, b)
      modifies this
      ensures Valid() && forall l :: l in links <==>
        l in old(links) || (l.parent == a && l.kind == kind && l.child in Chain(pdt, b) && l.child !in Chain(pdt, a))
    {
      hide Valid, CfgOk, IsPostDomTree;
      ghost var done: set<nat> := {};
      var cur: Option<nat> := Some(b);
      while cur.Some? && cur != nearest
        invariant Valid()
        invariant forall l :: l in links <==> l in old(links) || (l.parent == a && l.kind == kind && l.child in done)
        invariant cur.Some? ==> cur.value < |cfg.succ| && NearestCommon(pdt, a, cur.value) == nearest
        invariant cur.None? ==> nearest.None?
        invariant forall n: nat :: n in Chain(pdt, b) && n !in Chain(pdt, a) <==>
          n in done || (cur.Some? && n in Chain(pdt, cur.value) && n !in Chain(pdt, a))
        decreases if cur.Some? then pdt.level[cur.value] + 1 else 0
      {
        AddLink(a, kind, cur.value);
        done := done + {cur.value};
        cur := pdt.idom[cur.value];
      }
      if cur.Some? {
        ChainTransitive(pdt, a, cur.value);
      }
    }

    // ----- computeDependencies

    /** What the first `i` edges of block `a`, and all edges of the blocks before it, contribute. */
    ghost predicate LinkBefore(l: Link, a: nat, i: nat)
      requires CfgOk(cfg) && TreeOk(pdt) && |pdt.idom| == |cfg.succ| && a <= |cfg.succ| &&
        (a == |cfg.succ| ==> i == 0) && (a < |cfg.succ| ==> i <= |cfg.succ[a]|)
    {
      l.parent <= a && l.parent < |cfg.succ|
      && exists j: nat :: j < |cfg.succ[l.parent]| && (l.parent < a || j < i) && LinkBy(l, l.parent, j)
    }

    method ComputeDependencies()
      requires Valid() && links == {}
      modifies this
      ensures Valid()
      ensures forall l :: l in links <==>
        ControlDependent(cfg, l.child, l.parent, l.kind) ||
        (l.parent == Root() && l.kind == OTHER && PostDominates(cfg, l.child, ENTRY))
    {
      TreeFits();
      forall l ensures LinkBefore(l, |cfg.succ|, 0) <==> ControlDependent(cfg, l.child, l.parent, l.kind) {
        LinkMeaning(l);
      }
      hide Valid, CfgOk, IsPostDomTree, LinkBy, ControlDependent;
      for a := 0 to |cfg.succ|
        invariant Valid() && forall l :: l in links <==> LinkBefore(l, a, 0)
      {
        AddEdges(a);
      }
      AddEntry();
    }

    method AddEdges(a: nat)
      requires Valid() && CfgOk(cfg) && TreeOk(pdt) && |pdt.idom| == |cfg.succ| && a < |cfg.succ| &&
        forall l :: l in links <==> LinkBefore(l, a, 0)
      modifies this
      ensures Valid() && forall l :: l in links <==> LinkBefore(l, a + 1, 0)
    {
      hide Valid, CfgOk, IsPostDomTree, LinkBy, LinkBefore;
      for i := 0 to |cfg.succ[a]|
        invariant Valid() && forall l :: l in links <==> LinkBefore(l, a, i)
      {
        AddEdge(a, i);
        forall l ensures LinkBefore(l, a, i + 1) <==> LinkBefore(l, a, i) || LinkBy(l, a, i) {
          LinkBeforeStep(l, a, i);
        }
      }
      forall l ensures LinkBefore(l, a + 1, 0) <==> LinkBefore(l, a, |cfg.succ[a]|) {
        LinkBeforeNext(l, a);
      }
    }

    lemma LinkBeforeStep(l: Link, a: nat, i: nat)
      requires CfgOk(cfg) && TreeOk(pdt) && |pdt.idom| == |cfg.succ| && a < |cfg.succ| && i < |cfg.succ[a]|
      ensures LinkBefore(l, a, i + 1) <==> LinkBefore(l, a, i) || LinkBy(l, a, i)
    {
      hide CfgOk, TreeOk, Added, GetEdgeType;
    }

    lemma LinkBeforeNext(l: Link, a: nat)
      requires CfgOk(cfg) && TreeOk(pdt) && |pdt.idom| == |cfg.succ| && a < |cfg.succ|
      ensures LinkBefore(l, a + 1, 0) <==> LinkBefore(l, a, |cfg.succ[a]|)
    {
      hide CfgOk, TreeOk, LinkBy;
    }

    /** The tree's answer for an edge is control dependence along it. */
    lemma LinkByMeaning(l: Link, i: nat)
      requires Valid() && TreeOk(pdt) && |pdt.idom| == |cfg.succ| && CfgOk(cfg) && l.parent < |cfg.succ| &&
        i < |cfg.succ[l.parent]|
      ensures LinkBy(l, l.parent, i) <==>
        GetEdgeType(cfg, l.parent, cfg.succ[l.parent][i]) == l.kind && DependentBy(cfg, l.child, l.parent, i)
    {
      hide PostDominates;
      var a, b := l.parent, cfg.succ[l.parent][i];
      if l.child < |cfg.succ| {
        assert l.child in Chain(pdt, a) <==> PostDominates(cfg, l.child, a);
        assert l.child in Chain(pdt, b) <==> PostDominates(cfg, l.child, b);
      } else {
        PostDominatorIsBlock(cfg, l.child, b);
      }
    }

    lemma LinkMeaning(l: Link)
      requires Valid() && TreeOk(pdt) && |pdt.idom| == |cfg.succ| && CfgOk(cfg)
      ensures LinkBefore(l, |cfg.succ|, 0) <==> ControlDependent(cfg, l.child, l.parent, l.kind)
    {
      hide LinkBy, DependentBy;
      if l.parent < |cfg.succ| {
        forall i: nat | i < |cfg.succ[l.parent]|
          ensures LinkBy(l, l.parent, i) <==>
            GetEdgeType(cfg, l.parent, cfg.succ[l.parent][i]) == l.kind && DependentBy(cfg, l.child, l.parent, i)
        {
          LinkByMeaning(l, i);
        }
      }
    }

    /** The edges from the root: to all that the entry cannot avoid. */
    method AddEntry()
      requires Valid() && TreeOk(pdt) && |pdt.idom| == |cfg.succ| && |cfg.succ| > 0
      modifies this
      ensures Valid()
      ensures forall l :: l in links <==>
        l in old(links) || (l.parent == Root() && l.kind == OTHER && PostDominates(cfg, l.child, ENTRY))
    {
      forall n: nat ensures n in Chain(pdt, ENTRY) <==> PostDominates(cfg, n, ENTRY) {
      }
      hide Valid, CfgOk, IsPostDomTree, PostDominates;
      ghost var done: set<nat> := {};
      var cur: Option<nat> := Some(ENTRY);
      while cur.Some?
        invariant Valid() && forall l :: l in links <==>
          l in old(links) || (l.parent == Root() && l.kind == OTHER && l.child in done)
        invariant cur.Some? ==> cur.value < |cfg.succ|
        invariant forall n: nat :: n in Chain(pdt, ENTRY) <==> n in done || (cur.Some? && n in Chain(pdt, cur.value))
        decreases if cur.Some? then pdt.level[cur.value] + 1 else 0
      {
        AddLink(Root(), OTHER, cur.value);
        done := done + {cur.value};
        cur := pdt.idom[cur.value];
      }
    }

    /** The graph of a function, as computeDependencies leaves it. */
    ghost predicate Computed()
      reads this
    {
      && Valid()
      && forall l :: l in links <==>
        ControlDependent(cfg, l.child, l.parent, l.kind) ||
        (l.parent == Root() && l.kind == OTHER && PostDominates(cfg, l.child, ENTRY))
    }

    /** The three sets of children of a block, by its branch: the true children are those that the first successor cannot
        avoid and the block can, or the block itself; the false ones those of a different second successor; and a block
        that does not branch on a condition has other children only. */
    lemma ChildrenByBranch(a: nat, n: nat)
      requires Computed() && a < |cfg.succ|
      ensures cfg.conditional[a] ==> |cfg.succ[a]| == 2
      ensures cfg.conditional[a] ==> (n in trueChildren[a] <==>
        PostDominates(cfg, n, cfg.succ[a][0]) && !(n != a && PostDominates(cfg, n, a)))
      ensures cfg.conditional[a] ==> (n in falseChildren[a] <==>
        cfg.succ[a][1] != cfg.succ[a][0] && PostDominates(cfg, n, cfg.succ[a][1]) && !(n != a && PostDominates(cfg, n, a)))
      ensures cfg.conditional[a] ==> n !in otherChildren[a]
      ensures !cfg.conditional[a] ==> n !in trueChildren[a] && n !in falseChildren[a]
      ensures !cfg.conditional[a] ==> (n in otherChildren[a] <==>
        (exists i :: 0 <= i < |cfg.succ[a]| && PostDominates(cfg, n, cfg.succ[a][i])) && !(n != a && PostDominates(cfg, n, a)))
    {
      hide PostDominates, IsPostDomTree;
      assert n in Children(TRUE)[a] <==> Link(a, TRUE, n) in links;
      assert n in Children(FALSE)[a] <==> Link(a, FALSE, n) in links;
      assert n in Children(OTHER)[a] <==> Link(a, OTHER, n) in links;
      forall i: nat | i < |cfg.succ[a]|
        ensures DependentBy(cfg, n, a, i) <==> PostDominates(cfg, n, cfg.succ[a][i]) && !(n != a && PostDominates(cfg, n, a))
      {
      }
      if cfg.conditional[a] {
        assert cfg.succ[a] == [cfg.succ[a][0], cfg.succ[a][1]];
      }
    }

    /** The children of the root are exactly the postdominators of the entry. */
    lemma RootChildren(n: nat)
      requires Computed()
      ensures n in otherChildren[Root()] <==> PostDominates(cfg, n, ENTRY)
      ensures trueChildren[Root()] == falseChildren[Root()] == {}
    {
      hide PostDominates, IsPostDomTree;
      assert n in Children(OTHER)[Root()] <==> Link(Root(), OTHER, n) in links;
      forall m: nat ensures m !in trueChildren[Root()] && m !in falseChildren[Root()] {
        assert Link(Root(), TRUE, m) !in links && Link(Root(), FALSE, m) !in links;
        assert m !in Children(TRUE)[Root()] && m !in Children(FALSE)[Root()];
      }
      assert trueChildren[Root()] == {} && falseChildren[Root()] == {};
    }

    // ----- controls

    /** A chain of dependences from the root. */
    ghost predicate RootChain(c: seq<nat>, b: nat)
      reads this
    {
      c != [] && c[0] == Root() && c[|c| - 1] == b && forall i: nat :: i + 1 < |c| ==> LinksTo(c[i], c[i + 1])
    }

    /** Every chain of dependences from the root to `b` passes through `n`. */
    ghost predicate OnEveryChain(n: nat, b: nat)
      reads this
    {
      forall c :: RootChain(c, b) ==> n in c
    }

    /** The walk has come to `n` without meeting `a` on the way. */
    ghost predicate ClimbedTo(v: seq<nat>, n: nat, a: nat)
      reads this
    {
      n < |parents| && v != [] && v[|v| - 1] == n && a !in v[1..]
    }

    /** A chain of sole parents, upwards from a block. */
    ghost predicate SoleChain(c: seq<nat>, b: nat)
      reads this
    {
      c != [] && c[0] == b && (forall i :: 0 <= i < |c| ==> c[i] < |parents|) && forall i: nat :: i + 1 < |c| ==>
        parents[c[i]] == {c[i + 1]}
    }

    /** A sole parent lies on every path from the entry, before the block; or it is the root. */
    lemma SoleParentOnPath(n: nat, q: nat, p: seq<nat>) returns (i: nat)
      requires Computed() && n < Root() && parents[n] == {q} && PathFrom(FlowGraph(cfg), p, ENTRY, n)
      ensures q != Root() ==> i + 1 < |p| && p[i] == q
    {
      hide PostDominates, IsPostDomTree, ControlDependent;
      i := 0;
      if PostDominates(cfg, n, ENTRY) {
        assert Link(Root(), OTHER, n) in links;
        assert LinksTo(Root(), n);
        return;
      }
      SelfDominates(n);
      i := |p| - 1;
      while PostDominates(cfg, n, p[i])
        invariant i < |p| && (i + 1 < |p| ==> PostDominates(cfg, n, p[i + 1]))
        decreases i
      {
        i := i - 1;
      }
      StepDepends(n, p, i);
    }

    lemma SelfDominates(n: nat)
      requires n < |cfg.succ|
      ensures PostDominates(cfg, n, n)
    {
    }

    lemma StepDepends(n: nat, p: seq<nat>, i: nat)
      requires Computed() && n < Root() && Path(FlowGraph(cfg), p) && i + 1 < |p| && PostDominates(cfg, n, p[i + 1]) &&
        !PostDominates(cfg, n, p[i])
      ensures p[i] in parents[n]
    {
      hide PostDominates, IsPostDomTree;
      var a, b := p[i], p[i + 1];
      assert Edge(FlowGraph(cfg), a, b);
      var j :| 0 <= j < |cfg.succ[a]| && cfg.succ[a][j] == b;
      var kind := GetEdgeType(cfg, a, b);
      assert DependentBy(cfg, n, a, j);
      assert ControlDependent(cfg, n, a, kind);
      assert Link(a, kind, n) in links;
      assert LinksTo(a, n);
    }

    lemma IsSized()
      requires Computed()
      ensures Sized()
    {
    }

    lemma SoleMember(s: set<nat>, q: nat)
      requires |s| == 1 && q in s
      ensures s == {q}
    {
      assert |s - {q}| == 0;
    }

    lemma ChainsStart(b: nat)
      requires b < |parents|
      ensures SoleChain([b], b) && OnEveryChain(b, b)
    {
    }

    /** The path from the entry to the sole parent is a shorter one. */
    lemma Upwards(n: nat, q: nat, p: seq<nat>) returns (r: seq<nat>)
      requires Computed() && n <= Root() && parents[n] == {q} && (n != Root() ==> PathFrom(FlowGraph(cfg), p, ENTRY, n))
      ensures n != Root() && q <= Root()
      ensures q != Root() ==> |r| < |p| && PathFrom(FlowGraph(cfg), r, ENTRY, q)
      ensures q == Root() ==> p != []
    {
      RootHasNoParents();
      assert LinksTo(q, n);
      var i := SoleParentOnPath(n, q, p);
      r := [];
      if q != Root() {
        r := p[..i + 1];
        PathPrefix(FlowGraph(cfg), p, i);
      }
    }

    lemma PathPrefix(g: Graph, p: seq<nat>, i: nat)
      requires Path(g, p) && i < |p|
      ensures Path(g, p[..i + 1])
    {
      var q := p[..i + 1];
      forall k: nat | k + 1 < |q| ensures Edge(g, q[k], q[k + 1]) {
        assert Edge(g, p[k], p[k + 1]);
      }
    }

    lemma RootHasNoParents()
      requires Computed()
      ensures parents[Root()] == {}
    {
      forall q: nat ensures q !in parents[Root()] {
        assert q in parents[Root()] <==> LinksTo(q, Root());
      }
    }

    /** Every chain that comes through a node comes through its sole parent. */
    lemma ChainThrough(b: nat, n: nat, q: nat)
      requires Computed() && OnEveryChain(n, b) && n <= Root() && parents[n] == {q}
      ensures OnEveryChain(q, b)
    {
      RootHasNoParents();
      hide Valid;
      forall c | RootChain(c, b) ensures q in c {
        var k :| 0 <= k < |c| && c[k] == n;
        assert LinksTo(c[k - 1], c[k - 1 + 1]);
      }
    }

    lemma SoleChainExtend(v: seq<nat>, b: nat, q: nat)
      requires SoleChain(v, b) && parents[v[|v| - 1]] == {q} && q < |parents|
      ensures SoleChain(v + [q], b)
    {
    }

    /** All chains of sole parents are parts of the one that cannot be continued. */
    lemma SoleChainUnique(v: seq<nat>, a: nat, b: nat)
      requires SoleChain(v, b) && |parents[v[|v| - 1]]| != 1 && a !in v[1..]
      ensures !exists c :: SoleChain(c, b) && |c| >= 2 && c[|c| - 1] == a
    {
      forall c | SoleChain(c, b) && |c| >= 2 ensures c[|c| - 1] != a {
        var k := 1;
        while k < |c|
          invariant 1 <= k <= |c| && k <= |v| && c[..k] == v[..k]
        {
          assert parents[c[k - 1]] == {c[k - 1 + 1]};
          assert k < |v|;
          assert parents[v[k - 1]] == {v[k - 1 + 1]};
          k := k + 1;
        }
        assert c[|c| - 1] == v[1..][|c| - 2];
      }
    }

    lemma PathTo(b: nat) returns (p: seq<nat>)
      requires Computed() && b < |cfg.succ| && (b == ENTRY || Reaches(FlowGraph(cfg), ENTRY, b))
      ensures PathFrom(FlowGraph(cfg), p, ENTRY, b)
    {
      if b == ENTRY {
        p := [ENTRY];
      } else {
        p :| ReachesBy(FlowGraph(cfg), p, ENTRY, b);
      }
    }

    /** Does `a` lie on the chain of sole parents of `b`? If so, every chain of dependences from the root to `b` passes
        through it. The loop ends because a sole parent is closer to the entry. */
    method Controls(a: nat, b: nat) returns (r: bool)
      requires Computed() && a < Root() && b < Root() && (b == ENTRY || Reaches(FlowGraph(cfg), ENTRY, b))
      ensures r <==> exists c :: SoleChain(c, b) && |c| >= 2 && c[|c| - 1] == a
      ensures r ==> OnEveryChain(a, b)
    {
      hide Computed, RootChain, SoleChain, OnEveryChain, PathFrom, FlowGraph;
      IsSized();
      ghost var p := PathTo(b);
      ghost var v := [b];
      ChainsStart(b);
      var n: nat := b;
      while |parents[n]| == 1
        invariant SoleChain(v, b) && ClimbedTo(v, n, a)
        invariant n != Root() ==> PathFrom(FlowGraph(cfg), p, ENTRY, n)
        invariant OnEveryChain(n, b)
        decreases if n == Root() then 0 else |p|
      {
        var q :| q in parents[n];
        SoleMember(parents[n], q);
        p := Upwards(n, q, p);
        ChainThrough(b, n, q);
        SoleChainExtend(v, b, q);
        v, n := v + [q], q;
        if n == a { return true; }
      }
      SoleChainUnique(v, a, b);
      r := false;
    }

    // ----- influences

    /** Is `a` reached from `b` by one or more parent edges? */
    method DoesInfluence(a: nat, b: nat) returns (r: bool)
      requires Computed() && a < Root() && b < Root()
      ensures r <==> Reaches(parents, b, a)
    {
      forall n, q | 0 <= n < |parents| && q in parents[n] ensures q < |parents| {
        assert LinksTo(q, n);
      }
      r := Influences(parents, a, b);
    }
  }
}
