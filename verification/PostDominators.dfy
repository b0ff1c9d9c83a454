/** Every function whose blocks all lead to an exit has a postdominator tree: postdominators of a block form a chain. */
module PostDominators {
  import opened Wrappers
  import opened Graphs
  import opened ControlDependence

  ghost predicate AllExit(c: Cfg) { forall a :: 0 <= a < |c.succ| ==> Exits(c, a) }

  ghost predicate Exits(c: Cfg, a: nat) { exists p :: ExitPath(c, p, a) }

  ghost function PostDominatorsOf(c: Cfg, a: nat): (s: set<nat>)
    ensures forall b: nat :: b in s <==> PostDominates(c, b, a)
  {
    set b: nat | b < |c.succ| && PostDominates(c, b, a)
  }

  // ----- cutting and joining exit paths

  lemma Suffix(c: Cfg, p: seq<nat>, a: nat, k: nat)
    requires ExitPath(c, p, a) && k < |p|
    ensures ExitPath(c, p[k..], p[k])
  {
    var g, q := FlowGraph(c), p[k..];
    forall i: nat | i + 1 < |q| ensures Edge(g, q[i], q[i + 1]) {
      assert Edge(g, p[k + i], p[k + i + 1]);
    }
  }

  lemma Join(c: Cfg, p: seq<nat>, a: nat, k: nat, r: seq<nat>)
    requires ExitPath(c, p, a) && k < |p| && ExitPath(c, r, p[k])
    ensures ExitPath(c, p[..k] + r, a)
  {
    var g, q := FlowGraph(c), p[..k] + r;
    forall i: nat | i + 1 < |q| ensures Edge(g, q[i], q[i + 1]) {
      if i < k {
        assert Edge(g, p[i], p[i + 1]);
        assert q[i] == p[i] && q[i + 1] == p[i + 1];
      } else {
        assert Edge(g, r[i - k], r[i - k + 1]);
      }
    }
    forall i | 0 <= i < |q| ensures q[i] < |g| {
      assert q[i] == if i < k then p[i] else r[i - k];
    }
  }

  // ----- postdominance is a partial order in which the postdominators of a block are a chain

  lemma Reflexive(c: Cfg, a: nat)
    requires a < |c.succ|
    ensures PostDominates(c, a, a)
  {
  }

  lemma Transitive(c: Cfg, d: nat, b: nat, a: nat)
    requires PostDominates(c, d, b) && PostDominates(c, b, a)
    ensures PostDominates(c, d, a)
  {
    forall p | ExitPath(c, p, a) ensures d in p {
      var k :| 0 <= k < |p| && p[k] == b;
      Suffix(c, p, a, k);
      assert d in p[k..];
    }
  }

  /** Where both of two blocks occur on a path, the last of the two leads out without the other. */
  lemma Antisymmetric(c: Cfg, a: nat, b: nat)
    requires Exits(c, a) && PostDominates(c, a, b) && PostDominates(c, b, a)
    ensures a == b
  {
    var p :| ExitPath(c, p, a);
    var k := |p| - 1;
    while p[k] != a && p[k] != b
      invariant 0 <= k < |p| && (forall i :: k < i < |p| ==> p[i] != a && p[i] != b)
      decreases k
    {
      if k == 0 { return; }
      k := k - 1;
    }
    Suffix(c, p, a, k);
    var other := if p[k] == a then b else a;
    assert other in p[k..];
  }

  lemma Comparable(c: Cfg, b: nat, d: nat, a: nat)
    requires Exits(c, a) && PostDominates(c, b, a) && PostDominates(c, d, a)
    ensures PostDominates(c, b, d) || PostDominates(c, d, b)
  {
    if !PostDominates(c, b, d) && !PostDominates(c, d, b) {
      var q :| ExitPath(c, q, d) && b !in q;
      var r :| ExitPath(c, r, b) && d !in r;
      var p :| ExitPath(c, p, a);
      var k := First(p, b, d);
      if p[k] == b {
        Avoids(c, p, a, k, r, d);
      } else {
        Avoids(c, p, a, k, q, b);
      }
    }
  }

  /** A way out around a block. */
  lemma Avoids(c: Cfg, p: seq<nat>, a: nat, k: nat, r: seq<nat>, d: nat)
    requires ExitPath(c, p, a) && k < |p| && ExitPath(c, r, p[k]) && d !in p[..k] && d !in r
    ensures !PostDominates(c, d, a)
  {
    Join(c, p, a, k, r);
    var q := p[..k] + r;
    assert d !in q;
  }

  lemma First(p: seq<nat>, b: nat, d: nat) returns (k: nat)
    requires b in p
    ensures k < |p| && (p[k] == b || p[k] == d) && b !in p[..k] && d !in p[..k]
  {
    k := 0;
    while p[k] != b && p[k] != d
      invariant k < |p| && b !in p[..k] && d !in p[..k]
      decreases |p| - k
    {
      assert p[..k + 1] == p[..k] + [p[k]];
      k := k + 1;
    }
  }

  // ----- the tree

  /** The nearest postdominator other than the block: the one with the most postdominators. */
  ghost predicate Nearest(c: Cfg, i: nat, a: nat) {
    && i != a && PostDominates(c, i, a)
    && forall b: nat :: b != a && PostDominates(c, b, a) ==> |PostDominatorsOf(c, b)| <= |PostDominatorsOf(c, i)|
  }

  lemma MostOf(c: Cfg, s: set<nat>) returns (i: nat)
    requires s != {}
    ensures i in s && forall b :: b in s ==> |PostDominatorsOf(c, b)| <= |PostDominatorsOf(c, i)|
  {
    i :| i in s;
    var todo := s - {i};
    while todo != {}
      invariant todo <= s && i in s && forall b :: b in s - todo ==> |PostDominatorsOf(c, b)| <= |PostDominatorsOf(c, i)|
      decreases |todo|
    {
      var b :| b in todo;
      todo := todo - {b};
      if |PostDominatorsOf(c, b)| > |PostDominatorsOf(c, i)| {
        i := b;
      }
    }
  }

  /** Besides the block itself, its postdominators are those of the nearest one. */
  lemma NearestCovers(c: Cfg, i: nat, a: nat)
    requires AllExit(c) && a < |c.succ| && Nearest(c, i, a)
    ensures PostDominatorsOf(c, a) == {a} + PostDominatorsOf(c, i) && a !in PostDominatorsOf(c, i)
  {
    hide PostDominates;
    Reflexive(c, a);
    assert Exits(c, a);
    if PostDominates(c, a, i) {
      Antisymmetric(c, a, i);
    }
    forall b: nat | PostDominates(c, b, i) ensures PostDominates(c, b, a) {
      Transitive(c, b, i, a);
    }
    forall b: nat | b != a && PostDominates(c, b, a) ensures PostDominates(c, b, i) {
      Comparable(c, b, i, a);
      if !PostDominates(c, b, i) {
        PostDominatorIsBlock(c, b, a);
        Above(c, i, b);
      }
    }
  }

  /** A block has more postdominators than any other block that postdominates it. */
  lemma Above(c: Cfg, i: nat, b: nat)
    requires PostDominates(c, i, b) && !PostDominates(c, b, i) && b < |c.succ|
    ensures |PostDominatorsOf(c, i)| < |PostDominatorsOf(c, b)|
  {
    hide PostDominates;
    Reflexive(c, b);
    forall d: nat | PostDominates(c, d, i) ensures PostDominates(c, d, b) {
      Transitive(c, d, i, b);
    }
    Smaller(PostDominatorsOf(c, i), PostDominatorsOf(c, b), b);
  }

  lemma Smaller(s: set<nat>, t: set<nat>, x: nat)
    requires s <= t && x in t && x !in s
    ensures |s| < |t|
  {
    assert t == s + (t - s) && x in t - s;
  }

  /** The tree, for the first `n` blocks. */
  lemma BuildTree(c: Cfg, n: nat) returns (t: PostDomTree)
    requires AllExit(c) && n <= |c.succ|
    ensures |t.idom| == |t.level| == n
    ensures forall a :: 0 <= a < n ==> t.level[a] == |PostDominatorsOf(c, a)|
    ensures forall a :: 0 <= a < n ==> TreeAt(c, a, t.idom[a])
  {
    t := PostDomTree([], []);
    while |t.idom| < n
      invariant |t.idom| == |t.level| <= n
      invariant forall a :: 0 <= a < |t.idom| ==> t.level[a] == |PostDominatorsOf(c, a)| && TreeAt(c, a, t.idom[a])
    {
      var a := |t.idom|;
      var others := PostDominatorsOf(c, a) - {a};
      var idom: Option<nat> := None;
      Reflexive(c, a);
      if others != {} {
        var i := MostOf(c, others);
        idom := Some(i);
      }
      t := PostDomTree(t.idom + [idom], t.level + [|PostDominatorsOf(c, a)|]);
    }
  }

  ghost predicate TreeAt(c: Cfg, a: nat, idom: Option<nat>) {
    if idom.Some? then Nearest(c, idom.value, a) else PostDominatorsOf(c, a) == {a}
  }

  lemma {:induction false} ChainIsPostDominators(c: Cfg, t: PostDomTree, a: nat, b: nat)
    requires AllExit(c) && TreeOk(t) && |t.idom| == |c.succ| && a < |c.succ|
    requires forall x :: 0 <= x < |c.succ| ==> TreeAt(c, x, t.idom[x])
    ensures b in Chain(t, a) <==> b in PostDominatorsOf(c, a)
    decreases t.level[a]
  {
    assert TreeAt(c, a, t.idom[a]);
    if t.idom[a].Some? {
      NearestCovers(c, t.idom[a].value, a);
      ChainIsPostDominators(c, t, t.idom[a].value, b);
    }
  }

  /** If every block leads to an exit, there is a postdominator tree. */
  lemma PostDomTreeExists(c: Cfg) returns (t: PostDomTree)
    requires CfgOk(c) && AllExit(c)
    ensures IsPostDomTree(c, t)
  {
    hide PostDominates, CfgOk;
    t := BuildTree(c, |c.succ|);
    forall a | 0 <= a < |c.succ| && t.idom[a].Some?
      ensures t.idom[a].value < |c.succ| && t.level[t.idom[a].value] < t.level[a]
    {
      var i := t.idom[a].value;
      assert TreeAt(c, a, t.idom[a]);
      NearestCovers(c, i, a);
      PostDominatorIsBlock(c, i, a);
      Smaller(PostDominatorsOf(c, i), PostDominatorsOf(c, a), a);
    }
    forall a, b | 0 <= a < |c.succ| && 0 <= b < |c.succ| ensures b in Chain(t, a) <==> PostDominates(c, b, a) {
      ChainIsPostDominators(c, t, a, b);
    }
  }
}
