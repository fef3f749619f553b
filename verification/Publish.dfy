/**
 * Publishing workspace crates in dependency order (`compute_topological_layers` in
 * `scripts/publish-workspace.py`): what the layers mean, and when there are none.
 */
module Publish {
  import opened Base
  import opened Layering

  // ---------------------------------------------------------------------------------------------
  // What a layering means
  // ---------------------------------------------------------------------------------------------

  lemma {:induction false} FoundInLayers<N>(layers: seq<seq<N>>, n: nat, x: N) returns (i: nat)
    requires n <= |layers| && x in InLayers(layers, n)
    ensures i < n && x in layers[i]
  {
    if x in Elements(layers[n - 1]) {
      i := n - 1;
    } else {
      i := FoundInLayers(layers, n - 1, x);
    }
  }

  lemma {:induction false} LayerInLayers<N>(layers: seq<seq<N>>, i: nat, n: nat)
    requires i < n <= |layers|
    ensures Elements(layers[i]) <= InLayers(layers, n)
  {
    if i < n - 1 {
      LayerInLayers(layers, i, n - 1);
    }
  }

  lemma NotInLaterLayer<N>(le: (N, N) -> bool, g: Graph<N>, layers: seq<seq<N>>, i: nat, j: nat, x: N)
    requires Layered(le, g, layers) && i < j < |layers| && x in layers[i]
    ensures x !in layers[j]
  {
    LayerInLayers(layers, i, j);
    assert LayerOk(le, g, layers, j);
    assert x in Elements(layers[i]);
    assert x !in Elements(layers[j]);
  }

  /** No node is in two layers. */
  lemma OneLayerEach<N>(le: (N, N) -> bool, g: Graph<N>, layers: seq<seq<N>>, i: nat, j: nat, x: N)
    requires Layered(le, g, layers) && i < |layers| && j < |layers| && x in layers[i] && x in layers[j]
    ensures i == j
  {
    if i < j {
      NotInLaterLayer(le, g, layers, i, j, x);
    } else if j < i {
      NotInLaterLayer(le, g, layers, j, i, x);
    }
  }

  /** A dependency of a node in layer `i` is in an earlier layer. */
  lemma DependencyIsEarlier<N>(le: (N, N) -> bool, g: Graph<N>, layers: seq<seq<N>>, i: nat, x: N, d: N)
    returns (j: nat)
    requires Layered(le, g, layers) && i < |layers| && x in layers[i] && x in g && d in g[x]
    ensures j < i && d in layers[j]
  {
    assert LayerOk(le, g, layers, i);
    assert x in Elements(layers[i]);
    j := FoundInLayers(layers, i, d);
  }

  /** A node is not placed later than it has to be: past the first layer, some dependency is just before it. */
  lemma SomeDependencyIsJustBefore<N>(le: (N, N) -> bool, g: Graph<N>, layers: seq<seq<N>>, i: nat, x: N) returns (d: N)
    requires Layered(le, g, layers) && 0 < i < |layers| && x in layers[i]
    ensures x in g && d in g[x] && d in layers[i - 1]
  {
    assert LayerOk(le, g, layers, i) && LayerOk(le, g, layers, i - 1);
    assert x in Elements(layers[i]);
    assert x !in InLayers(layers, i - 1);
    assert !(g[x] <= InLayers(layers, i - 1));
    d :| d in g[x] && d !in InLayers(layers, i - 1);
  }

  // ---------------------------------------------------------------------------------------------
  // Cycles
  // ---------------------------------------------------------------------------------------------

  /** A chain of dependencies. */
  ghost predicate Chain<N>(g: Graph<N>, path: seq<N>) {
    forall k :: 0 <= k < |path| - 1 ==> path[k] in g && path[k + 1] in g[path[k]]
  }

  ghost predicate Cycle<N>(g: Graph<N>, path: seq<N>) {
    |path| >= 2 && path[0] == path[|path| - 1] && Chain(g, path)
  }

  ghost predicate HasCycle<N(!new)>(g: Graph<N>) {
    exists path :: Cycle(g, path)
  }

  /** Along a chain of placed nodes the layer index strictly falls. */
  lemma {:induction false} ChainDescends<N>(
    le: (N, N) -> bool, g: Graph<N>, layers: seq<seq<N>>, path: seq<N>, i: nat, k: nat)
    returns (j: nat)
    requires Layered(le, g, layers) && Chain(g, path) && i < |layers|
    requires k < |path| && path[0] in layers[i]
    ensures j < |layers| && path[k] in layers[j] && j + k <= i
    decreases k
  {
    if k == 0 {
      j := i;
    } else {
      var before := ChainDescends(le, g, layers, path, i, k - 1);
      assert path[k - 1] in g && path[k - 1 + 1] in g[path[k - 1]];
      j := DependencyIsEarlier(le, g, layers, before, path[k - 1], path[k]);
    }
  }

  lemma PlacedMeansAcyclic<N(!new)>(le: (N, N) -> bool, g: Graph<N>, layers: seq<seq<N>>)
    requires Layered(le, g, layers) && InLayers(layers, |layers|) == g.Keys
    ensures !HasCycle(g)
  {
    forall path | Cycle(g, path) ensures false {
      assert path[0] in g;
      var i := FoundInLayers(layers, |layers|, path[0]);
      var j := ChainDescends(le, g, layers, path, i, |path| - 1);
      OneLayerEach(le, g, layers, i, j, path[0]);
    }
  }

  /** Every node of `rest` has a dependency in `rest`. */
  ghost predicate Stuck<N>(g: Graph<N>, rest: set<N>) {
    rest <= g.Keys && forall x :: x in rest ==> g[x] * rest != {}
  }

  lemma {:induction false} WalkInside<N>(g: Graph<N>, rest: set<N>, n: nat) returns (path: seq<N>)
    requires Stuck(g, rest) && rest != {}
    ensures |path| == n + 1 && Chain(g, path) && forall k :: 0 <= k < |path| ==> path[k] in rest
  {
    if n == 0 {
      var x :| x in rest;
      path := [x];
    } else {
      var front := WalkInside(g, rest, n - 1);
      var y :| y in g[front[n - 1]] * rest;
      path := front + [y];
    }
  }

  /** More positions than values: some value repeats. */
  lemma {:induction false} Pigeonhole<N>(s: seq<N>, values: set<N>) returns (i: nat, j: nat)
    requires |s| > |values| && forall k :: 0 <= k < |s| ==> s[k] in values
    ensures i < j < |s| && s[i] == s[j]
    decreases |s|
  {
    var n := |s| - 1;
    if k :| 0 <= k < n && s[k] == s[n] {
      i, j := k, n;
    } else {
      i, j := Pigeonhole(s[..n], values - {s[n]});
    }
  }

  lemma StuckMeansCycle<N(!new)>(g: Graph<N>, rest: set<N>)
    requires Stuck(g, rest) && rest != {}
    ensures HasCycle(g)
  {
    var walk := WalkInside(g, rest, |rest|);
    var i, j := Pigeonhole(walk, rest);
    var path := walk[i..j + 1];
    forall k | 0 <= k < |path| - 1 ensures path[k] in g && path[k + 1] in g[path[k]] {
      assert walk[i + k] in g && walk[i + k + 1] in g[walk[i + k]];
    }
    assert Cycle(g, path);
  }

  // ---------------------------------------------------------------------------------------------
  // Crates
  // ---------------------------------------------------------------------------------------------

  datatype CrateInfo = CrateInfo(publish: bool, deps: set<string>)

  /** Publishable crates and their dependencies on publishable crates. */
  function PublishGraph(crates: map<string, CrateInfo>): (g: Graph<string>)
    ensures forall x :: x in g <==> x in crates && crates[x].publish
    ensures forall x :: x in g ==> g[x] == crates[x].deps * g.Keys
  {
    var names := set x | x in crates && crates[x].publish;
    map x | x in names :: crates[x].deps * names
  }

  /** Lexicographic order by code point. */
  predicate NameLe(a: string, b: string) {
    a == [] || (b != [] && (a[0] < b[0] || (a[0] == b[0] && NameLe(a[1..], b[1..]))))
  }

  lemma {:induction false} NameLeTotal(a: string, b: string)
    ensures NameLe(a, b) || NameLe(b, a)
  {
    if a == [] || b == [] {
    } else {
      NameLeTotal(a[1..], b[1..]);
    }
  }

  lemma {:induction false} NameLeTransitive(a: string, b: string, c: string)
    requires NameLe(a, b) && NameLe(b, c)
    ensures NameLe(a, c)
  {
    if a != [] && a[0] == b[0] == c[0] {
      NameLeTransitive(a[1..], b[1..], c[1..]);
    }
  }

  lemma NamesAreOrdered()
    ensures TotalOrder(NameLe)
  {
    forall a, b ensures NameLe(a, b) || NameLe(b, a) {
      NameLeTotal(a, b);
    }
    forall a, b, c | NameLe(a, b) && NameLe(b, c) ensures NameLe(a, c) {
      NameLeTransitive(a, b, c);
    }
  }

  /** The index rule: every dependency is in an earlier layer, one of them in the layer just before. */
  ghost predicate PlacedRight(g: Graph<string>, layers: seq<seq<string>>, i: nat, x: string)
    requires i < |layers|
  {
    && x in g
    && (forall d :: d in g[x] ==> exists j :: 0 <= j < i && d in layers[j])
    && (i > 0 ==> exists d :: d in g[x] && d in layers[i - 1])
  }

  ghost predicate Placed(layers: seq<seq<string>>, x: string) {
    exists i :: 0 <= i < |layers| && x in layers[i]
  }

  /** Everything is in exactly one layer, in the right one, and layers are non-empty and in name order. */
  ghost predicate LayersRight(g: Graph<string>, layers: seq<seq<string>>) {
    && (forall x :: x in g <==> Placed(layers, x))
    && (forall i, x :: 0 <= i < |layers| && x in layers[i] ==> PlacedRight(g, layers, i, x))
    && (forall i, j, x :: 0 <= i < |layers| && 0 <= j < |layers| && x in layers[i] && x in layers[j] ==> i == j)
    && (forall i :: 0 <= i < |layers| ==> layers[i] != [] && Sorted(NameLe, layers[i]) && NoDups(layers[i]))
  }

  lemma LayeringPlacesRight(g: Graph<string>, layers: seq<seq<string>>, i: nat, x: string)
    requires Layered(NameLe, g, layers) && i < |layers| && x in layers[i]
    ensures PlacedRight(g, layers, i, x)
  {
    assert LayerOk(NameLe, g, layers, i);
    assert x in Elements(layers[i]);
    forall d | d in g[x] ensures exists j :: 0 <= j < i && d in layers[j] {
      var j := DependencyIsEarlier(NameLe, g, layers, i, x, d);
    }
    if i > 0 {
      var d := SomeDependencyIsJustBefore(NameLe, g, layers, i, x);
    }
  }

  /**
   * The script's function: it fails exactly when publishable crates depend on each other in a
   * cycle; otherwise every publishable crate is in exactly one layer, its index is one more than
   * the largest index among its dependencies (the first layer if it has none), and each layer is
   * non-empty and in strictly increasing name order. On failure every reported crate waits for
   * another reported one.
   */
  method ComputeTopologicalLayers(crates: map<string, CrateInfo>) returns (r: Result<seq<seq<string>>, set<string>>)
    ensures r.Err? <==> HasCycle(PublishGraph(crates))
    ensures r.Err? ==> r.error != {} && Stuck(PublishGraph(crates), r.error)
    ensures r.Ok? ==> LayersRight(PublishGraph(crates), r.value)
  {
    var g := PublishGraph(crates);
    NamesAreOrdered();
    var layers, published := LayerGraph(NameLe, g);
    var remaining := g.Keys - published;
    if remaining != {} {
      ReportIsStuck(g, published);
      return Err(remaining);
    }
    assert published == g.Keys by {
      forall x | x in g ensures x in published {
        assert x !in remaining;
      }
    }
    PlacedMeansAcyclic(NameLe, g, layers);
    LayersMean(g, layers);
    return Ok(layers);
  }

  lemma ReportIsStuck(g: Graph<string>, published: set<string>)
    requires (forall x :: x in g ==> g[x] <= g.Keys) && Ready(g, published) == {} && published < g.Keys
    ensures Stuck(g, g.Keys - published) && HasCycle(g)
  {
    var rest := g.Keys - published;
    forall x | x in rest ensures g[x] * rest != {} {
      assert x !in Ready(g, published);
      assert !(g[x] <= published);
      var d :| d in g[x] && d !in published;
      assert d in g[x] * rest;
    }
    StuckMeansCycle(g, rest);
  }

  lemma LayersMean(g: Graph<string>, layers: seq<seq<string>>)
    requires Layered(NameLe, g, layers) && InLayers(layers, |layers|) == g.Keys
    ensures LayersRight(g, layers)
  {
    forall i, x | 0 <= i < |layers| && x in layers[i] ensures PlacedRight(g, layers, i, x) {
      LayeringPlacesRight(g, layers, i, x);
    }
    forall x ensures x in g <==> Placed(layers, x) {
      if x in g {
        var i := FoundInLayers(layers, |layers|, x);
      }
    }
    forall i, j, x | 0 <= i < |layers| && 0 <= j < |layers| && x in layers[i] && x in layers[j] ensures i == j {
      OneLayerEach(NameLe, g, layers, i, j, x);
    }
    forall i | 0 <= i < |layers| ensures layers[i] != [] && Sorted(NameLe, layers[i]) && NoDups(layers[i]) {
      assert LayerOk(NameLe, g, layers, i);
    }
  }
}
