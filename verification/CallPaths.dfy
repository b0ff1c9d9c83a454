/** KLEE's tree of call paths: recursion is folded when a node is asked for, and statistics are summed bottom up. */
module CallPaths {
  import opened Wrappers

  /** A call site and the function called there. The root has the key with neither, 0 and 0. */
  datatype Key = Key(callSite: nat, callee: nat)
  const NO_KEY := Key(0, 0)

  datatype CallSiteInfo = CallSiteInfo(count: nat, statistics: int)

  // ----- trees whose nodes come after their parents

  predicate Tree(parents: seq<nat>) {
    parents != [] && forall i :: 1 <= i < |parents| ==> parents[i] < i
  }

  /** `j` is `i` or one of its ancestors. */
  predicate Above(parents: seq<nat>, j: nat, i: nat)
    requires Tree(parents) && i < |parents|
    decreases i
  {
    j == i || (i > 0 && Above(parents, j, parents[i]))
  }

  lemma {:induction false} AboveIsBelow(parents: seq<nat>, j: nat, i: nat)
    requires Tree(parents) && i < |parents| && Above(parents, j, i)
    ensures j <= i
    decreases i
  {
    if j != i {
      AboveIsBelow(parents, j, parents[i]);
    }
  }

  lemma {:induction false} AboveTransitive(parents: seq<nat>, k: nat, j: nat, i: nat)
    requires Tree(parents) && j < |parents| && i < |parents| && Above(parents, k, j) && Above(parents, j, i)
    ensures Above(parents, k, i)
    decreases i
  {
    if j != i {
      AboveTransitive(parents, k, j, parents[i]);
    }
  }

  /** Two ancestors of one node are comparable. */
  lemma {:induction false} AboveTotal(parents: seq<nat>, k: nat, j: nat, i: nat)
    requires Tree(parents) && k <= j && i < |parents| && Above(parents, k, i) && Above(parents, j, i)
    ensures j < |parents| && Above(parents, k, j)
    decreases i
  {
    AboveIsBelow(parents, j, i);
    AboveIsBelow(parents, k, i);
    if j != i {
      AboveTotal(parents, k, j, parents[i]);
    }
  }

  lemma {:induction false} AboveExtended(parents: seq<nat>, p: nat, j: nat, i: nat)
    requires Tree(parents) && p < |parents| && i < |parents|
    ensures Tree(parents + [p]) && (Above(parents + [p], j, i) <==> Above(parents, j, i))
    decreases i
  {
    if j != i && i > 0 {
      AboveExtended(parents, p, j, parents[i]);
    }
  }

  /** No key twice on the way to the root. */
  ghost predicate Folded(parents: seq<nat>, keys: seq<Key>)
    requires Tree(parents) && |keys| == |parents|
  {
    forall i: nat, j: nat :: j < i < |keys| && Above(parents, j, i) ==> keys[j] != keys[i]
  }

  /** On every chain a key belongs to at most one node. */
  lemma KeyOncePerChain(parents: seq<nat>, keys: seq<Key>, a: nat, b: nat, i: nat)
    requires Tree(parents) && |keys| == |parents| && Folded(parents, keys) && i < |keys| && Above(parents, a, i) &&
      Above(parents, b, i)
    ensures a < |keys| && b < |keys| && (keys[a] == keys[b] ==> a == b)
  {
    AboveIsBelow(parents, a, i);
    AboveIsBelow(parents, b, i);
    AboveTotal(parents, if a < b then a else b, if a < b then b else a, i);
  }

  // ----- sums

  /** The sum of the picked numbers. */
  function Sum(xs: seq<int>, pick: seq<bool>): int
    requires |xs| == |pick|
  {
    if xs == [] then 0 else Sum(xs[..|xs| - 1], pick[..|xs| - 1]) + if pick[|xs| - 1] then xs[|xs| - 1] else 0
  }

  lemma {:induction false} SumSplit(xs: seq<int>, a: seq<bool>, b: seq<bool>, c: seq<bool>)
    requires |xs| == |a| == |b| == |c|
    requires forall i :: 0 <= i < |xs| ==> c[i] == (a[i] || b[i]) && !(a[i] && b[i])
    ensures Sum(xs, c) == Sum(xs, a) + Sum(xs, b)
  {
    if xs != [] {
      var n := |xs| - 1;
      SumSplit(xs[..n], a[..n], b[..n], c[..n]);
    }
  }

  lemma {:induction false} SumNone(xs: seq<int>, a: seq<bool>)
    requires |xs| == |a| && forall i :: 0 <= i < |xs| ==> !a[i]
    ensures Sum(xs, a) == 0
  {
    if xs != [] {
      SumNone(xs[..|xs| - 1], a[..|xs| - 1]);
    }
  }

  lemma {:induction false} SumOne(xs: seq<int>, a: seq<bool>, k: nat)
    requires |xs| == |a| && k < |xs| && forall i :: 0 <= i < |xs| ==> a[i] == (i == k)
    ensures Sum(xs, a) == xs[k]
  {
    var n := |xs| - 1;
    if k == n {
      SumNone(xs[..n], a[..n]);
    } else {
      SumOne(xs[..n], a[..n], k);
    }
  }

  // ----- what the summary is to say

  /** The nodes but the root whose first ancestor-or-self numbered `m` or less is `j`. */
  ghost function Represented(parents: seq<nat>, m: nat, j: nat): (r: seq<bool>)
    requires Tree(parents)
    ensures |r| == |parents|
  {
    seq(|parents|, i requires 0 <= i < |parents| => i >= 1 && Representative(parents, m, i) == j)
  }

  ghost function Representative(parents: seq<nat>, m: nat, i: nat): (r: nat)
    requires Tree(parents) && i < |parents|
    ensures r <= m && r <= i
    decreases i
  {
    if i <= m then i else Representative(parents, m, parents[i])
  }

  /** Handing node `m` over to its parent. */
  lemma {:induction false} RepresentativeStep(parents: seq<nat>, m: nat, i: nat)
    requires Tree(parents) && 1 <= m < |parents| && i < |parents|
    ensures Representative(parents, m - 1, i) == if Representative(parents, m, i) == m then parents[m]
      else Representative(parents, m, i)
    decreases i
  {
    if i > m {
      RepresentativeStep(parents, m, parents[i]);
    } else if i == m {
      assert parents[m] <= m - 1;
    }
  }

  lemma {:induction false} RepresentativeAbove(parents: seq<nat>, m: nat, i: nat)
    requires Tree(parents) && m < |parents| && i < |parents|
    ensures Representative(parents, m, i) == m <==> Above(parents, m, i)
    decreases i
  {
    if i > m {
      RepresentativeAbove(parents, m, parents[i]);
    } else if Above(parents, m, i) {
      AboveIsBelow(parents, m, i);
    }
  }

  /** The nodes but the root with an ancestor-or-self numbered `m` or more that has the key. */
  ghost function Under(parents: seq<nat>, keys: seq<Key>, k: Key, m: nat): (r: seq<bool>)
    requires Tree(parents) && |keys| == |parents|
    ensures |r| == |parents|
  {
    seq(|parents|, i requires 0 <= i < |parents| => i >= 1 && IsUnder(parents, keys, k, m, i))
  }

  ghost predicate IsUnder(parents: seq<nat>, keys: seq<Key>, k: Key, m: nat, i: nat)
    requires Tree(parents) && |keys| == |parents| && i < |parents|
  {
    exists j: nat :: m <= j < |keys| && Above(parents, j, i) && keys[j] == k
  }

  /** The nodes numbered `m` or more with the key. */
  ghost function Having(keys: seq<Key>, k: Key, m: nat): (r: seq<bool>)
    ensures |r| == |keys|
  {
    seq(|keys|, i requires 0 <= i < |keys| => i >= 1 && i >= m && keys[i] == k)
  }

  /** One more node with its key: because no key repeats on a chain, nothing is counted twice. */
  lemma UnderStep(parents: seq<nat>, keys: seq<Key>, xs: seq<int>, m: nat)
    requires Tree(parents) && |xs| == |keys| == |parents| && Folded(parents, keys) && 1 <= m < |keys|
    ensures Sum(xs, Under(parents, keys, keys[m], m)) ==
      Sum(xs, Under(parents, keys, keys[m], m + 1)) + Sum(xs, Represented(parents, m, m))
  {
    var k := keys[m];
    var a, b, c := Under(parents, keys, k, m + 1), Represented(parents, m, m), Under(parents, keys, k, m);
    forall i | 0 <= i < |xs| ensures c[i] == (a[i] || b[i]) && !(a[i] && b[i]) {
      if i >= 1 {
        RepresentativeAbove(parents, m, i);
        assert c[i] == IsUnder(parents, keys, k, m, i) && a[i] == IsUnder(parents, keys, k, m + 1, i) &&
          b[i] == Above(parents, m, i);
        if a[i] && b[i] {
          var j: nat :| m + 1 <= j < |keys| && Above(parents, j, i) && keys[j] == k;
          AboveTotal(parents, m, j, i);
          assert false;
        }
      }
    }
    SumSplit(xs, a, b, c);
  }

  lemma UnderOther(parents: seq<nat>, keys: seq<Key>, k: Key, m: nat)
    requires Tree(parents) && |keys| == |parents| && m < |keys| && keys[m] != k
    ensures Under(parents, keys, k, m) == Under(parents, keys, k, m + 1)
  {
    forall i | 1 <= i < |keys| ensures IsUnder(parents, keys, k, m, i) == IsUnder(parents, keys, k, m + 1, i) {
    }
  }

  /** Every node is found again under its parent and key; what is cached is the node itself or a folded ancestor. */
  ghost predicate Cached(parents: seq<nat>, keys: seq<Key>, children: map<(nat, Key), nat>)
    requires Tree(parents) && |keys| == |parents|
  {
    && (forall i: nat :: 1 <= i < |keys| ==> (parents[i], keys[i]) in children && children[(parents[i], keys[i])] == i)
    && (forall p: nat, k :: (p, k) in children ==>
          p < |keys| && children[(p, k)] < |keys| && keys[children[(p, k)]] == k && IsCallee(parents, p, children[(p, k)]))
  }

  /** What a call from `p` leads to: a child of `p`, or for a recursive call an ancestor. */
  predicate IsCallee(parents: seq<nat>, p: nat, n: nat)
    requires Tree(parents) && p < |parents| && n < |parents|
  {
    (n >= 1 && parents[n] == p) || Above(parents, n, p)
  }

  /** The nearest ancestor-or-self with a key. */
  function FindAbove(parents: seq<nat>, keys: seq<Key>, p: nat, key: Key): (r: Option<nat>)
    requires Tree(parents) && |keys| == |parents| && p < |keys|
    ensures r.Some? ==> r.value < |keys| && keys[r.value] == key && Above(parents, r.value, p)
    ensures r.None? ==> forall j: nat :: j < |keys| && Above(parents, j, p) ==> keys[j] != key
    decreases p
  {
    if keys[p] == key then Some(p) else if p == 0 then None else FindAbove(parents, keys, parents[p], key)
  }

  /** A call that leads back to an ancestor. */
  lemma FoldKeeps(parents: seq<nat>, keys: seq<Key>, children: map<(nat, Key), nat>, p: nat, key: Key, n: nat)
    requires Tree(parents) && |keys| == |parents| && Cached(parents, keys, children) && p < |keys| && (p, key) !in children
    requires n < |keys| && keys[n] == key && Above(parents, n, p)
    ensures Cached(parents, keys, children[(p, key) := n])
  {
  }

  /** A call that leads to a new node. */
  lemma ExtendKeeps(parents: seq<nat>, keys: seq<Key>, children: map<(nat, Key), nat>, p: nat, key: Key)
    requires Tree(parents) && |keys| == |parents| && Folded(parents, keys) && Cached(parents, keys, children)
    requires p < |keys| && (p, key) !in children && FindAbove(parents, keys, p, key).None?
    ensures Tree(parents + [p]) && Folded(parents + [p], keys + [key])
    ensures Cached(parents + [p], keys + [key], children[(p, key) := |keys|])
  {
    forall i: nat, j: nat | i < |keys| ensures Above(parents + [p], j, i) <==> Above(parents, j, i) {
      AboveExtended(parents, p, j, i);
    }
    assert Tree(parents + [p]);
  }

  /** A node's sum goes to its parent. */
  lemma HandOver(parents: seq<nat>, xs: seq<int>, m: nat)
    requires Tree(parents) && |xs| == |parents| && 1 <= m < |xs|
    ensures forall j: nat :: j < m ==>
      Sum(xs, Represented(parents, m - 1, j)) == Sum(xs, Represented(parents, m, j)) + if j == parents[m]
        then Sum(xs, Represented(parents, m, m)) else 0
  {
    forall j: nat | j < m
      ensures Sum(xs, Represented(parents, m - 1, j)) ==
        Sum(xs, Represented(parents, m, j)) + if j == parents[m] then Sum(xs, Represented(parents, m, m)) else 0
    {
      forall i: nat | i < |xs| {
        RepresentativeStep(parents, m, i);
      }
      if j == parents[m] {
        SumSplit(xs, Represented(parents, m, j), Represented(parents, m, m), Represented(parents, m - 1, j));
      } else {
        assert Represented(parents, m - 1, j) == Represented(parents, m, j);
      }
    }
  }

  /** With the nodes above `m` handed over, each of them has its subtree's sum, the others what they stand for so far,
      and the root that on top of what it had. */
  ghost predicate HandedOver(parents: seq<nat>, xs: seq<int>, m: nat, before: int, sums: seq<int>) {
    && Tree(parents) && |xs| == |sums| == |parents| && m < |sums|
    && (forall j: nat :: 1 <= j <= m ==> sums[j] == Sum(xs, Represented(parents, m, j)))
    && (forall j: nat :: m < j < |sums| ==> sums[j] == Sum(xs, Represented(parents, j, j)))
    && sums[0] == before + Sum(xs, Represented(parents, m, 0))
  }

  lemma HandOverOne(parents: seq<nat>, xs: seq<int>, m: nat, before: int, sums: seq<int>)
    requires HandedOver(parents, xs, m, before, sums) && m >= 1
    ensures parents[m] < m && sums[m] == Sum(xs, Represented(parents, m, m))
    ensures HandedOver(parents, xs, m - 1, before, sums[parents[m] := sums[parents[m]] + sums[m]])
  {
    hide Sum, Represented;
    HandOver(parents, xs, m);
  }

  /** The table so far holds the keys of the nodes above `m`, with their sums. */
  ghost predicate TableUpTo(parents: seq<nat>, keys: seq<Key>, xs: seq<int>, counts: seq<nat>, m: nat,
      table: map<Key, CallSiteInfo>)
    requires Tree(parents) && |xs| == |counts| == |keys| == |parents|
  {
    && table.Keys == (set i | m < i < |keys| :: keys[i])
    && forall k :: k in table ==>
      table[k].statistics == Sum(xs, Under(parents, keys, k, m + 1)) &&
      table[k].count == Sum(counts, Having(keys, k, m + 1))
  }

  lemma EmptyTable(parents: seq<nat>, keys: seq<Key>, xs: seq<int>, counts: seq<nat>)
    requires Tree(parents) && |xs| == |counts| == |keys| == |parents|
    ensures TableUpTo(parents, keys, xs, counts, |keys| - 1, map[])
  {
  }

  /** One more node adds its calls and its sum to the entry of its key. */
  lemma CountNode(parents: seq<nat>, keys: seq<Key>, xs: seq<int>, counts: seq<nat>, m: nat, table: map<Key, CallSiteInfo>)
    requires Tree(parents) && |xs| == |counts| == |keys| == |parents| && Folded(parents, keys) && 1 <= m < |keys|
    requires TableUpTo(parents, keys, xs, counts, m, table)
    ensures var k := keys[m];
      var csi := if k in table then table[k] else CallSiteInfo(0, 0);
      TableUpTo(parents, keys, xs, counts, m - 1, table[k := CallSiteInfo(csi.count + counts[m], csi.statistics + Sum(xs, Represented(parents, m, m)))])
  {
    hide Sum, Above, Under, Having, Represented, Tree, Folded;
    var key := keys[m];
    UnderStep(parents, keys, xs, m);
    HavingStep(keys, counts, m);
    if key !in table {
      NoneBelow(parents, keys, xs, counts, m);
    }
    assert (set i | m - 1 < i < |keys| :: keys[i]) == (set i | m < i < |keys| :: keys[i]) + {key};
    forall k | k in table && k != key
      ensures Under(parents, keys, k, m) == Under(parents, keys, k, m + 1) && Having(keys, k, m) == Having(keys, k, m + 1)
    {
      UnderOther(parents, keys, k, m);
      HavingOther(keys, k, m);
    }
  }

  lemma HavingOther(keys: seq<Key>, k: Key, m: nat)
    requires m < |keys| && keys[m] != k
    ensures Having(keys, k, m) == Having(keys, k, m + 1)
  {
  }

  lemma HavingStep(keys: seq<Key>, counts: seq<int>, m: nat)
    requires |counts| == |keys| && 1 <= m < |keys|
    ensures Sum(counts, Having(keys, keys[m], m)) == Sum(counts, Having(keys, keys[m], m + 1)) + counts[m]
  {
    var one := seq(|keys|, i => i == m);
    SumOne(counts, one, m);
    SumSplit(counts, Having(keys, keys[m], m + 1), one, Having(keys, keys[m], m));
  }

  lemma NoneBelow(parents: seq<nat>, keys: seq<Key>, xs: seq<int>, counts: seq<int>, m: nat)
    requires Tree(parents) && |xs| == |counts| == |keys| == |parents| && m < |keys|
    requires forall i :: m < i < |keys| ==> keys[i] != keys[m]
    ensures Sum(xs, Under(parents, keys, keys[m], m + 1)) == 0 && Sum(counts, Having(keys, keys[m], m + 1)) == 0
  {
    SumNone(xs, Under(parents, keys, keys[m], m + 1));
    SumNone(counts, Having(keys, keys[m], m + 1));
  }

  lemma RepresentedAtFirst(parents: seq<nat>, xs: seq<int>, j: nat)
    requires Tree(parents) && |xs| == |parents| && j < |xs|
    ensures Sum(xs, Represented(parents, |xs| - 1, j)) == if j == 0 then 0 else xs[j]
  {
    var r := Represented(parents, |xs| - 1, j);
    if j == 0 {
      SumNone(xs, r);
    } else {
      SumOne(xs, r, j);
    }
  }

  lemma HandOverNone(parents: seq<nat>, xs: seq<int>, before: int)
    requires Tree(parents) && |xs| == |parents|
    ensures HandedOver(parents, xs, |xs| - 1, before, [before] + xs[1..])
  {
    hide Sum, Represented;
    var sums := [before] + xs[1..];
    forall j: nat | j < |xs| ensures sums[j] == Sum(xs, Represented(parents, |xs| - 1, j)) + if j == 0 then before else 0 {
      RepresentedAtFirst(parents, xs, j);
    }
  }

  lemma HandOverAll(parents: seq<nat>, xs: seq<int>, before: int, sums: seq<int>)
    requires HandedOver(parents, xs, 0, before, sums)
    ensures |sums| == |xs| && sums[0] == before + Sum(xs, Represented(parents, 0, 0))
    ensures forall j: nat :: 1 <= j < |sums| ==> sums[j] == Sum(xs, Represented(parents, j, j))
  {
    hide Sum, Represented;
  }

  class CallPathManager {
    // node 0 is the root, the others follow in the order of their creation
    var parents: seq<nat>
    var keys: seq<Key>
    var children: map<(nat, Key), nat>
    var statistics: seq<int>
    var summaryStatistics: seq<int>
    var counts: seq<nat>

    ghost predicate Valid()
      reads this
    {
      && Tree(parents) && |keys| == |parents| == |statistics| == |summaryStatistics| == |counts| && keys[0] == NO_KEY
      && Folded(parents, keys) && Cached(parents, keys, children)
    }

    /** Nodes only ever join; nothing about an existing node changes. */
    twostate predicate OnlyGrew()
      reads this
    {
      && old(parents) <= parents && old(keys) <= keys && old(statistics) <= statistics && old(counts) <= counts
      && old(summaryStatistics) <= summaryStatistics
      && (forall pk :: pk in old(children) ==> pk in children && children[pk] == old(children)[pk])
      && |keys| <= |old(keys)| + 1
    }

    constructor ()
      ensures Valid() && parents == [0] && keys == [NO_KEY] && children == map[]
      ensures statistics == summaryStatistics == [0] && counts == [0]
    {
      parents, keys, children := [0], [NO_KEY], map[];
      statistics, summaryStatistics, counts := [0], [0], [0];
    }

    twostate predicate Appended(parent: nat, key: Key)
      reads this
    {
      && children == old(children) && parents == old(parents) + [parent] && keys == old(keys) + [key]
      && statistics == old(statistics) + [0] && summaryStatistics == old(summaryStatistics) + [0] && counts == old(counts) + [0]
    }

    /** computeCallPath: the nearest ancestor with this key, or else a new child. */
    method ComputeCallPath(parent: nat, key: Key) returns (n: nat)
      requires Valid() && parent < |keys| && (parent, key) !in children
      modifies this
      ensures Tree(parents) && |keys| == |parents| == |statistics| == |summaryStatistics| == |counts|
      ensures match old(FindAbove(parents, keys, parent, key))
        case Some(p) => n == p && unchanged(this)
        case None => n == |old(keys)| && Appended(parent, key)
    {
      var p: nat := parent;
      while keys[p] != key && p != 0
        invariant p < |keys| && FindAbove(parents, keys, p, key) == FindAbove(parents, keys, parent, key)
        decreases p
      {
        p := parents[p];
      }
      if keys[p] == key { return p; }
      n := |keys|;
      parents, keys := parents + [parent], keys + [key];
      statistics, summaryStatistics, counts := statistics + [0], summaryStatistics + [0], counts + [0];
    }

    /** getCallPath: the same call leads to the same node ever after, and a recursive one back to an ancestor. */
    method GetCallPath(parent: Option<nat>, key: Key) returns (n: nat)
      requires Valid() && (parent.Some? ==> parent.value < |keys|)
      modifies this
      ensures Valid() && OnlyGrew() && n < |keys| && keys[n] == key
      ensures var p := if parent.Some? then parent.value else 0;
        (p, key) in children && children[(p, key)] == n && IsCallee(parents, p, n)
      ensures |keys| > |old(keys)| ==> n == |old(keys)| && statistics[n] == 0 && counts[n] == 0
    {
      var p := if parent.Some? then parent.value else 0;
      if (p, key) in children { return children[(p, key)]; }
      if FindAbove(parents, keys, p, key).Some? {
        FoldKeeps(parents, keys, children, p, key, FindAbove(parents, keys, p, key).value);
      } else {
        ExtendKeeps(parents, keys, children, p, key);
      }
      n := ComputeCallPath(p, key);
      children := children[(p, key) := n];
    }

    /** What the interpreter does with a node. */
    method Record(n: nat, calls: nat, delta: int)
      requires Valid() && n < |keys|
      modifies this`counts, this`statistics
      ensures Valid() && counts == old(counts)[n := old(counts)[n] + calls] &&
        statistics == old(statistics)[n := old(statistics)[n] + delta]
    {
      counts, statistics := counts[n := counts[n] + calls], statistics[n := statistics[n] + delta];
    }

    /** framePushed: a call counts once, at the node its path leads to. */
    method FramePushed(parent: Option<nat>, key: Key) returns (n: nat)
      requires Valid() && (parent.Some? ==> parent.value < |keys|)
      modifies this
      ensures Valid() && old(parents) <= parents && old(keys) <= keys && old(statistics) <= statistics
      ensures n < |keys| && keys[n] == key && IsCallee(parents, if parent.Some? then parent.value else 0, n)
      ensures counts[n] == 1 + if n < |old(counts)| then old(counts)[n] else 0
      ensures forall j: nat :: j < |old(counts)| && j != n ==> counts[j] == old(counts)[j]
    {
      hide Tree, Folded, Cached, IsCallee;
      n := GetCallPath(parent, key);
      Record(n, 1, 0);
    }

    /** getSummaryStatistics: for every key, the calls of its nodes, and the statistics of all nodes that have an
        ancestor-or-self with the key, each node once. The root's own summary keeps growing from call to call. */
    method GetSummaryStatistics() returns (results: map<Key, CallSiteInfo>)
      requires Valid()
      modifies this`summaryStatistics
      ensures Valid() && TableUpTo(parents, keys, statistics, counts, 0, results)
      ensures forall j: nat :: 1 <= j < |keys| ==> summaryStatistics[j] == Sum(statistics, Represented(parents, j, j))
      ensures summaryStatistics[0] == old(summaryStatistics[0]) + Sum(statistics, Represented(parents, 0, 0))
    {
      hide Sum, Represented, TableUpTo, Folded, Cached, HandedOver;
      EmptyTable(parents, keys, statistics, counts);
      HandOverNone(parents, statistics, summaryStatistics[0]);
      summaryStatistics := [summaryStatistics[0]] + statistics[1..];
      results := map[];
      var m := |keys| - 1;
      while m > 0
        invariant 0 <= m < |keys| && |summaryStatistics| == |keys|
        invariant HandedOver(parents, statistics, m, old(summaryStatistics[0]), summaryStatistics)
        invariant TableUpTo(parents, keys, statistics, counts, m, results)
      {
        HandOverOne(parents, statistics, m, old(summaryStatistics[0]), summaryStatistics);
        CountNode(parents, keys, statistics, counts, m, results);
        var p, k := parents[m], keys[m];
        summaryStatistics := summaryStatistics[p := summaryStatistics[p] + summaryStatistics[m]];
        var csi := if k in results then results[k] else CallSiteInfo(0, 0);
        results := results[k := CallSiteInfo(csi.count + counts[m], csi.statistics + summaryStatistics[m])];
        m := m - 1;
      }
      HandOverAll(parents, statistics, old(summaryStatistics[0]), summaryStatistics);
    }
  }
}
