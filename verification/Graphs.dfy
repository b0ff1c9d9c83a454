/** Finite directed graphs over node numbers, their paths, and the two searches of the state machine extractor. */
module Graphs {
  /** The successors of every node. */
  type Graph = seq<set<nat>>

  predicate GraphOk(g: Graph) {
    forall i, x :: 0 <= i < |g| && x in g[i] ==> x < |g|
  }

  predicate Edge(g: Graph, a: nat, b: nat) { a < |g| && b in g[a] }

  /** A path of at least zero edges. */
  ghost predicate Path(g: Graph, p: seq<nat>) {
    p != [] && (forall i :: 0 <= i < |p| ==> p[i] < |g|) && forall i: nat :: i + 1 < |p| ==> Edge(g, p[i], p[i + 1])
  }

  ghost predicate PathFrom(g: Graph, p: seq<nat>, a: nat, b: nat) {
    Path(g, p) && p[0] == a && p[|p| - 1] == b
  }

  /** `b` can be reached from `a` by one or more edges. */
  ghost predicate ReachesBy(g: Graph, p: seq<nat>, a: nat, b: nat) { PathFrom(g, p, a, b) && |p| >= 2 }

  ghost predicate Reaches(g: Graph, a: nat, b: nat) { exists p :: ReachesBy(g, p, a, b) }

  lemma PathExtend(g: Graph, p: seq<nat>, b: nat)
    requires Path(g, p) && Edge(g, p[|p| - 1], b) && b < |g|
    ensures Path(g, p + [b])
  {
    var q := p + [b];
    forall i: nat | i + 1 < |q| ensures Edge(g, q[i], q[i + 1]) {
      if i + 1 < |p| {
        assert Edge(g, p[i], p[i + 1]);
      }
    }
  }

  lemma ReachesStep(g: Graph, a: nat, b: nat, c: nat)
    requires (a == b && a < |g|) || Reaches(g, a, b)
    requires Edge(g, b, c) && c < |g|
    ensures Reaches(g, a, c)
  {
    if a == b {
      PathExtend(g, [a], c);
      assert ReachesBy(g, [a, c], a, c) by { assert [a] + [c] == [a, c]; }
    } else {
      var p :| ReachesBy(g, p, a, b);
      PathExtend(g, p, c);
      assert ReachesBy(g, p + [c], a, c);
    }
  }

  /** A set that contains the successors of `a` and of its own members contains all that `a` reaches. */
  lemma {:induction false} ClosedHolds(g: Graph, s: set<nat>, p: seq<nat>, a: nat, b: nat)
    requires ReachesBy(g, p, a, b)
    requires forall y :: Edge(g, a, y) ==> y in s
    requires forall x, y :: x in s && Edge(g, x, y) ==> y in s
    ensures b in s
    decreases |p|
  {
    var q := p[..|p| - 1];
    assert Edge(g, p[|p| - 2], p[|p| - 1]);
    if |q| >= 2 {
      forall i: nat | i + 1 < |q| ensures Edge(g, q[i], q[i + 1]) {
        assert Edge(g, p[i], p[i + 1]);
      }
      ClosedHolds(g, s, q, a, p[|p| - 2]);
    }
  }

  // ----- influences: breadth first along the edges of `g`

  /** A search that has seen `seen`, of which `work` is still to be looked at, and has not met `target`. */
  ghost predicate Searching(g: Graph, start: nat, target: nat, seen: set<nat>, work: seq<nat>) {
    && start < |g| && (forall x :: x in seen ==> x < |g| && Reaches(g, start, x))
    && (forall x :: x in work ==> x in seen)
    && (forall y :: Edge(g, start, y) ==> y in seen)
    && (forall x :: x in seen && x !in work ==> x != target && forall y :: Edge(g, x, y) ==> y in seen)
  }

  /** A search with nothing left to look at has missed nothing. */
  lemma SearchDone(g: Graph, start: nat, target: nat, seen: set<nat>)
    requires Searching(g, start, target, seen, [])
    ensures !Reaches(g, start, target)
  {
    if Reaches(g, start, target) {
      var p :| ReachesBy(g, p, start, target);
      ClosedHolds(g, seen, p, start, target);
    }
  }

  lemma Below(s: set<nat>, n: nat)
    requires forall x :: x in s ==> x < n
    ensures |s| <= n
  {
    if n == 0 {
      assert s == {};
    } else {
      Below(s - {n - 1}, n - 1);
    }
  }

  /** Adds what is new among the successors of a node to the work list. */
  method AddNew(xs: set<nat>, seen0: set<nat>, work0: seq<nat>) returns (seen: set<nat>, work: seq<nat>)
    ensures seen == seen0 + xs && (seen == seen0 ==> work == work0)
    ensures forall x :: x in work <==> x in work0 || x in seen - seen0
  {
    seen, work := seen0, work0;
    var todo := xs;
    while todo != {}
      invariant todo <= xs && seen == seen0 + (xs - todo) && (seen == seen0 ==> work == work0)
      invariant forall x :: x in work <==> x in work0 || x in seen - seen0
      decreases |todo|
    {
      var x :| x in todo;
      if x !in seen {
        seen, work := seen + {x}, work + [x];
      }
      todo := todo - {x};
    }
  }

  lemma Grows(s: set<nat>, t: set<nat>)
    requires s <= t
    ensures |s| <= |t| && (|s| == |t| ==> s == t)
  {
    assert t == s + (t - s);
  }

  lemma KeepsSearching(g: Graph, start: nat, target: nat, seen: set<nat>, work: seq<nat>, seen2: set<nat>, work2: seq<nat>)
    requires Searching(g, start, target, seen, work) && work != [] && work[0] != target && work[0] < |g|
    requires seen2 == seen + g[work[0]] && forall x :: x in seen2 && x !in seen ==> x < |g| && Reaches(g, start, x)
    requires forall x :: x in work2 <==> x in work[1..] || x in seen2 - seen
    ensures Searching(g, start, target, seen2, work2)
  {
    assert forall x :: x in work ==> x == work[0] || x in work[1..];
  }

  /** Is `target` reached from `start` by one or more edges? Every node is looked at once. */
  method Influences(g: Graph, target: nat, start: nat) returns (r: bool)
    requires GraphOk(g) && start < |g|
    ensures r <==> Reaches(g, start, target)
  {
    var seen: set<nat>, work: seq<nat> := AddNew(g[start], {}, []);
    forall x | x in seen ensures x < |g| && Reaches(g, start, x) {
      ReachesStep(g, start, start, x);
    }
    Below(seen, |g|);
    while work != []
      invariant Searching(g, start, target, seen, work) && |seen| <= |g|
      decreases |g| - |seen|, |work|
    {
      var n := work[0];
      if n == target { return true; }
      var was := seen;
      var rest := work[1..];
      assert work == [n] + rest;
      seen, work := AddNew(g[n], seen, rest);
      forall x | x in seen && x !in was ensures x < |g| && Reaches(g, start, x) {
        ReachesStep(g, start, n, x);
      }
      Below(seen, |g|);
      Grows(was, seen);
      KeepsSearching(g, start, target, was, [n] + rest, seen, work);
    }
    SearchDone(g, start, target, seen);
    r := false;
  }

  // ----- findAPath: depth first, inside a loop and around its header

  /** The edges that stay in the loop and do not enter its header. */
  ghost function Within(g: Graph, loop: set<nat>, header: nat): (h: Graph)
    ensures |h| == |g| && forall i :: 0 <= i < |g| ==> h[i] == (g[i] * loop) - {header}
    ensures forall a, b :: Edge(h, a, b) <==> Edge(g, a, b) && b in loop && b != header
  {
    seq(|g|, i requires 0 <= i < |g| => (g[i] * loop) - {header})
  }

  /** The stack holds what it did and what was visited since. */
  ghost predicate Pushed(stack0: seq<nat>, visited0: set<nat>, stack: seq<nat>, visited: set<nat>) {
    && (visited == visited0 ==> stack == stack0)
    && forall x :: x in stack <==> x in stack0 || x in visited - visited0
  }

  lemma PushOne(stack0: seq<nat>, visited0: set<nat>, stack: seq<nat>, visited: set<nat>, x: nat)
    requires Pushed(stack0, visited0, stack, visited) && visited0 <= visited && x !in visited
    ensures Pushed(stack0, visited0, stack + [x], visited + {x})
  {
    assert x in visited + {x};
  }

  /** All of `inside` but what is still to do has been visited, and the goal is not among it. */
  ghost predicate Taken(inside: set<nat>, todo: set<nat>, visited0: set<nat>, visited: set<nat>, b: nat) {
    visited == visited0 + (inside - todo) && b !in visited
  }

  lemma TakeOne(inside: set<nat>, todo: set<nat>, visited0: set<nat>, visited: set<nat>, b: nat, x: nat)
    requires Taken(inside, todo, visited0, visited, b) && x in todo
    ensures visited0 <= visited
    ensures x !in inside || x in visited ==> Taken(inside, todo - {x}, visited0, visited, b)
    ensures x in inside && x != b ==> Taken(inside, todo - {x}, visited0, visited + {x}, b)
  {
    assert inside - (todo - {x}) == inside - todo + if x in inside then {x} else {};
  }

  lemma PushNone(stack: seq<nat>, visited: set<nat>)
    ensures Pushed(stack, visited, stack, visited)
  {
  }

  lemma TakenAll(inside: set<nat>, visited0: set<nat>, visited: set<nat>, b: nat)
    requires Taken(inside, {}, visited0, visited, b)
    ensures visited == visited0 + inside && b !in inside
  {
  }

  /** Pushes the successors inside the loop that were not visited before, unless one of them is the goal. */
  method PushNew(xs: set<nat>, b: nat, loop: set<nat>, header: nat, visited0: set<nat>, stack0: seq<nat>)
    returns (found: bool, visited: set<nat>, stack: seq<nat>)
    requires b !in visited0
    ensures found <==> b in (xs * loop) - {header}
    ensures !found ==> visited == visited0 + ((xs * loop) - {header}) && Pushed(stack0, visited0, stack, visited)
  {
    ghost var inside := (xs * loop) - {header};
    assert Taken(inside, xs, visited0, visited0, b);
    hide Pushed, Taken;
    visited, stack := visited0, stack0;
    PushNone(stack0, visited0);
    var todo := xs;
    while todo != {}
      invariant todo <= xs && Pushed(stack0, visited0, stack, visited) && Taken(inside, todo, visited0, visited, b)
      decreases |todo|
    {
      var x :| x in todo;
      TakeOne(inside, todo, visited0, visited, b, x);
      todo := todo - {x};
      if x in visited || x !in loop || x == header { continue; }
      if x == b { return true, visited, stack; }
      PushOne(stack0, visited0, stack, visited, x);
      visited, stack := visited + {x}, stack + [x];
    }
    TakenAll(inside, visited0, visited, b);
    found := false;
  }

  /** Does a path of at least one edge lead from `a` to `b`, whose nodes after `a` lie in the loop and are not its header? */
  method FindAPath(g: Graph, a: nat, b: nat, loop: set<nat>, header: nat) returns (r: bool)
    requires GraphOk(g) && a < |g|
    ensures r <==> Reaches(Within(g, loop, header), a, b)
  {
    hide Reaches;
    ghost var h := Within(g, loop, header);
    var found, visited: set<nat>, stack: seq<nat> := PushNew(g[a], b, loop, header, {}, []);
    forall x | x in h[a] ensures x < |h| && Reaches(h, a, x) {
      ReachesStep(h, a, a, x);
    }
    if found { return true; }
    Below(visited, |g|);
    while stack != []
      invariant Searching(h, a, b, visited, stack) && b !in visited && |visited| <= |g|
      decreases |g| - |visited|, |stack|
    {
      var n := stack[|stack| - 1];
      var rest := stack[..|stack| - 1];
      assert stack == rest + [n] && n in stack;
      ghost var was := visited;
      forall x | x in h[n] ensures x < |h| && Reaches(h, a, x) {
        ReachesStep(h, a, n, x);
      }
      found, visited, stack := PushNew(g[n], b, loop, header, visited, rest);
      if found { return true; }
      KeepsSearchingUp(h, a, b, was, rest, n, visited, stack);
      Below(visited, |g|);
      Grows(was, visited);
    }
    SearchDone(h, a, b, visited);
    r := false;
  }

  lemma KeepsSearchingUp(h: Graph, start: nat, target: nat, seen: set<nat>, rest: seq<nat>, n: nat, seen2: set<nat>,
      work2: seq<nat>)
    requires Searching(h, start, target, seen, rest + [n]) && n < |h| && target !in seen2
    requires seen2 == seen + h[n] && forall x :: x in seen2 && x !in seen ==> x < |h| && Reaches(h, start, x)
    requires forall x :: x in work2 <==> x in rest || x in seen2 - seen
    ensures Searching(h, start, target, seen2, work2)
  {
    hide Reaches;
    assert n in rest + [n] && forall x :: x in rest + [n] ==> x == n || x in rest;
  }
}
