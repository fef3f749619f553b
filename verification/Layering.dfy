/**
 * Layering a dependency graph (`compute_topological_layers` in `scripts/publish-workspace.py`),
 * for node names of any type with a total order.
 */
module Layering {
  import opened Base

  /** The dependencies of each node. */
  type Graph<N> = map<N, set<N>>

  // ---------------------------------------------------------------------------------------------
  // Names in order
  // ---------------------------------------------------------------------------------------------

  function Elements<N(==)>(s: seq<N>): set<N> {
    set x | x in s
  }

  lemma {:induction false} InsertElements<N>(le: (N, N) -> bool, s: seq<N>, x: N)
    requires NoDups(s) && x !in s
    ensures NoDups(Insert(le, s, x)) && Elements(Insert(le, s, x)) == Elements(s) + {x}
    decreases |s|
  {
    if s == [] || le(s[|s| - 1], x) {
    } else {
      var front, last := s[..|s| - 1], s[|s| - 1];
      var rest := Insert(le, front, x);
      InsertElements(le, front, x);
      assert s == front + [last];
      assert last !in front;
      forall j | 0 <= j < |rest| ensures rest[j] != last {
        assert rest[j] in Elements(rest);
      }
      assert Elements(Insert(le, s, x)) == Elements(rest) + {last};
    }
  }

  /** `sorted(list(queue))`. */
  method Sort<N(!new,==)>(le: (N, N) -> bool, queue: seq<N>) returns (layer: seq<N>)
    requires TotalOrder(le) && NoDups(queue)
    ensures Sorted(le, layer) && NoDups(layer) && Elements(layer) == Elements(queue)
  {
    layer := [];
    for i := 0 to |queue|
      invariant Sorted(le, layer) && NoDups(layer) && Elements(layer) == Elements(queue[..i])
    {
      assert queue[i] !in Elements(layer);
      InsertElements(le, layer, queue[i]);
      InsertSorts(le, layer, queue[i]);
      layer := Insert(le, layer, queue[i]);
      assert queue[..i + 1] == queue[..i] + [queue[i]];
    }
    assert queue[..|queue|] == queue;
  }

  // ---------------------------------------------------------------------------------------------
  // Reverse edges and degrees
  // ---------------------------------------------------------------------------------------------

  function Neighbors<N>(adj: map<N, seq<N>>, d: N): seq<N> {
    if d in adj then adj[d] else []
  }

  /** The nodes that depend on `d`. */
  function Dependents<N(==)>(g: Graph<N>, d: N): set<N> {
    set x | x in g && d in g[x]
  }

  /** `adj` lists, without repetition, the nodes among `done` that depend on each node. */
  ghost predicate ListsDependents<N(!new)>(g: Graph<N>, adj: map<N, seq<N>>, done: set<N>) {
    forall d :: NoDups(Neighbors(adj, d)) && Elements(Neighbors(adj, d)) == Dependents(g, d) * done
  }

  /** As above, when of the edges of `node` only those from `linked` are in place. */
  ghost predicate ListsPartly<N(!new)>(g: Graph<N>, adj: map<N, seq<N>>, done: set<N>, node: N, linked: set<N>) {
    forall d :: && NoDups(Neighbors(adj, d))
                && Elements(Neighbors(adj, d)) == Dependents(g, d) * done + (if d in linked then {node} else {})
  }

  lemma LinkOne<N(!new)>(
    g: Graph<N>, adj: map<N, seq<N>>, done: set<N>, node: N, linked: set<N>, d: N)
    requires ListsPartly(g, adj, done, node, linked) && node !in done && d !in linked
    ensures ListsPartly(g, adj[d := Neighbors(adj, d) + [node]], done, node, linked + {d})
  {
    var before := Neighbors(adj, d);
    assert node !in Elements(before);
    assert Elements(before + [node]) == Elements(before) + {node};
  }

  lemma LinkedAll<N(!new)>(g: Graph<N>, adj: map<N, seq<N>>, done: set<N>, node: N)
    requires node in g && ListsPartly(g, adj, done, node, g[node])
    ensures ListsDependents(g, adj, done + {node})
  {
    forall d ensures Dependents(g, d) * (done + {node})
                     == Dependents(g, d) * done + (if d in g[node] then {node} else {}) {
    }
  }

  /** Adds one node: an edge from each of its dependencies, counted in its degree. */
  method AddNode<N(!new,==)>(g: Graph<N>, node: N, adj: map<N, seq<N>>, ghost done: set<N>)
    returns (adj': map<N, seq<N>>, degree: nat)
    requires node in g && node !in done && ListsDependents(g, adj, done)
    ensures ListsDependents(g, adj', done + {node}) && degree == |g[node]|
  {
    adj', degree := adj, 0;
    var left := g[node];
    while left != {}
      invariant left <= g[node] && degree + |left| == |g[node]|
      invariant ListsPartly(g, adj', done, node, g[node] - left)
      decreases left
    {
      var d :| d in left;
      LinkOne(g, adj', done, node, g[node] - left, d);
      adj' := adj'[d := Neighbors(adj', d) + [node]];
      assert g[node] - (left - {d}) == (g[node] - left) + {d};
      left := left - {d};
      degree := degree + 1;
    }
    assert g[node] - left == g[node];
    LinkedAll(g, adj', done, node);
  }

  method ReverseEdges<N(!new,==)>(g: Graph<N>) returns (inDegree: map<N, nat>, adj: map<N, seq<N>>)
    ensures Counts(g, inDegree, {})
    ensures ListsDependents(g, adj, g.Keys)
  {
    inDegree := map x | x in g :: 0;
    adj := map[];
    var nodes := g.Keys;
    while nodes != {}
      invariant nodes <= g.Keys && inDegree.Keys == g.Keys
      invariant forall x :: x in g && x !in nodes ==> inDegree[x] == |g[x]|
      invariant ListsDependents(g, adj, g.Keys - nodes)
      decreases nodes
    {
      var node :| node in nodes;
      var degree;
      adj, degree := AddNode(g, node, adj, g.Keys - nodes);
      inDegree := inDegree[node := degree];
      assert g.Keys - (nodes - {node}) == (g.Keys - nodes) + {node};
      nodes := nodes - {node};
    }
    assert g.Keys - nodes == g.Keys;
    forall x | x in g ensures inDegree[x] == |g[x] - {}| {
      assert g[x] - {} == g[x];
    }
  }

  // ---------------------------------------------------------------------------------------------
  // Publishing
  // ---------------------------------------------------------------------------------------------

  /** Nodes not in `done` all of whose dependencies are. */
  function Ready<N(==)>(g: Graph<N>, done: set<N>): set<N> {
    set x | x in g && x !in done && g[x] <= done
  }

  /** Each node's degree counts its dependencies outside `done`. */
  ghost predicate Counts<N>(g: Graph<N>, inDegree: map<N, nat>, done: set<N>) {
    inDegree.Keys == g.Keys && forall x :: x in g ==> inDegree[x] == |g[x] - done|
  }

  /** Nodes whose last missing dependency was `node`. */
  function Released<N(==)>(g: Graph<N>, done: set<N>, node: N): set<N> {
    set x | x in g && node in g[x] && g[x] <= done + {node}
  }

  lemma RemoveOne<N>(s: set<N>, done: set<N>, node: N)
    requires node in s && node !in done
    ensures |s - done| == |s - (done + {node})| + 1
    ensures |s - (done + {node})| == 0 <==> s <= done + {node}
  {
    assert s - done == (s - (done + {node})) + {node};
  }

  /** Degrees while the dependents in `seen` have been told about `node` and the others not yet. */
  ghost predicate CountsPartly<N>(g: Graph<N>, inDegree: map<N, nat>, done: set<N>, node: N, seen: set<N>) {
    && inDegree.Keys == g.Keys
    && forall x :: x in g ==> inDegree[x] == if x in seen then |g[x] - (done + {node})| else |g[x] - done|
  }

  lemma CountsAll<N>(g: Graph<N>, inDegree: map<N, nat>, done: set<N>, node: N)
    requires CountsPartly(g, inDegree, done, node, Dependents(g, node))
    ensures Counts(g, inDegree, done + {node})
  {
    forall x | x in g ensures inDegree[x] == |g[x] - (done + {node})| {
      if x !in Dependents(g, node) {
        assert g[x] - (done + {node}) == g[x] - done;
      }
    }
  }

  lemma ElementsAppend<N>(s: seq<N>, x: N)
    requires NoDups(s) && x !in s
    ensures NoDups(s + [x]) && Elements(s + [x]) == Elements(s) + {x}
  {
  }

  lemma ElementsPrefix<N>(s: seq<N>, i: nat)
    requires NoDups(s) && i < |s|
    ensures s[i] in Elements(s) && s[i] !in Elements(s[..i])
    ensures Elements(s[..i + 1]) == Elements(s[..i]) + {s[i]}
  {
    assert s[..i + 1] == s[..i] + [s[i]];
  }

  /** State of the inner loop: `seen` have been told; those left without dependencies are queued. */
  ghost predicate Notified<N>(
    g: Graph<N>, done: set<N>, node: N, queued: set<N>, inDegree: map<N, nat>, next: seq<N>, seen: set<N>)
  {
    && CountsPartly(g, inDegree, done, node, seen)
    && NoDups(next) && Elements(next) == queued + Released(g, done, node) * seen
  }

  lemma NotifyOne<N>(
    g: Graph<N>, done: set<N>, node: N, queued: set<N>, inDegree: map<N, nat>, next: seq<N>, seen: set<N>, x: N)
    requires Notified(g, done, node, queued, inDegree, next, seen)
    requires x in Dependents(g, node) && node !in done && x !in seen
    requires forall y :: y in queued ==> y in g && g[y] <= done
    ensures inDegree[x] > 0
    ensures var inDegree' := inDegree[x := inDegree[x] - 1];
            Notified(g, done, node, queued, inDegree', if inDegree'[x] == 0 then next + [x] else next, seen + {x})
  {
    RemoveOne(g[x], done, node);
    if |g[x] - (done + {node})| == 0 {
      assert x !in Elements(next);
      ElementsAppend(next, x);
      assert Released(g, done, node) * (seen + {x}) == Released(g, done, node) * seen + {x};
    } else {
      assert Released(g, done, node) * (seen + {x}) == Released(g, done, node) * seen;
    }
  }

  lemma NotifiedAll<N>(
    g: Graph<N>, done: set<N>, node: N, queued: set<N>, inDegree: map<N, nat>, next: seq<N>)
    requires Notified(g, done, node, queued, inDegree, next, Dependents(g, node))
    ensures Counts(g, inDegree, done + {node})
    ensures NoDups(next) && Elements(next) == queued + Released(g, done, node)
  {
    CountsAll(g, inDegree, done, node);
    assert Released(g, done, node) * Dependents(g, node) == Released(g, done, node);
  }

  lemma NotifiedNone<N>(g: Graph<N>, done: set<N>, node: N, inDegree: map<N, nat>, next: seq<N>)
    requires Counts(g, inDegree, done) && NoDups(next)
    ensures Notified(g, done, node, Elements(next), inDegree, next, {})
  {
  }

  /** The inner loop: one node is published and its dependents lose one dependency. */
  method PublishOne<N(==)>(
    g: Graph<N>, node: N, neighbors: seq<N>, inDegree: map<N, nat>, next: seq<N>, ghost done: set<N>)
    returns (inDegree': map<N, nat>, next': seq<N>)
    requires node !in done && Counts(g, inDegree, done)
    requires NoDups(neighbors) && Elements(neighbors) == Dependents(g, node)
    requires NoDups(next) && forall x :: x in Elements(next) ==> x in g && g[x] <= done
    ensures Counts(g, inDegree', done + {node})
    ensures NoDups(next') && Elements(next') == Elements(next) + Released(g, done, node)
  {
    inDegree', next' := inDegree, next;
    ghost var seen: set<N> := {};
    NotifiedNone(g, done, node, inDegree, next);
    for i := 0 to |neighbors|
      invariant seen == Elements(neighbors[..i])
      invariant Notified(g, done, node, Elements(next), inDegree', next', seen)
    {
      var neighbor := neighbors[i];
      ElementsPrefix(neighbors, i);
      NotifyOne(g, done, node, Elements(next), inDegree', next', seen, neighbor);
      inDegree' := inDegree'[neighbor := inDegree'[neighbor] - 1];
      if inDegree'[neighbor] == 0 {
        next' := next' + [neighbor];
      }
      seen := seen + {neighbor};
    }
    assert neighbors[..|neighbors|] == neighbors;
    NotifiedAll(g, done, node, Elements(next), inDegree', next');
  }

  /** Nodes that become ready between `before` and `done`. */
  function ReleasedBy<N(==)>(g: Graph<N>, before: set<N>, done: set<N>): set<N> {
    set x | x in g && g[x] <= done && !(g[x] <= before)
  }

  lemma ReleasedStep<N>(g: Graph<N>, before: set<N>, done: set<N>, node: N)
    requires before <= done && node !in done
    ensures ReleasedBy(g, before, done + {node}) == ReleasedBy(g, before, done) + Released(g, done, node)
  {
  }

  /** State between two nodes of a layer. */
  ghost predicate MidLayer<N>(g: Graph<N>, before: set<N>, done: set<N>, inDegree: map<N, nat>, next: seq<N>) {
    Counts(g, inDegree, done) && NoDups(next) && Elements(next) == ReleasedBy(g, before, done)
  }

  lemma LayerStarts<N>(g: Graph<N>, before: set<N>, inDegree: map<N, nat>)
    requires Counts(g, inDegree, before)
    ensures MidLayer(g, before, before, inDegree, [])
  {
  }

  lemma NodeOfLayer<N(!new)>(g: Graph<N>, adj: map<N, seq<N>>, layer: seq<N>, before: set<N>, i: nat)
    requires ListsDependents(g, adj, g.Keys) && NoDups(layer) && before !! Elements(layer) && i < |layer|
    ensures layer[i] !in before + Elements(layer[..i])
    ensures before + Elements(layer[..i + 1]) == before + Elements(layer[..i]) + {layer[i]}
    ensures NoDups(Neighbors(adj, layer[i])) && Elements(Neighbors(adj, layer[i])) == Dependents(g, layer[i])
  {
    ElementsPrefix(layer, i);
    assert Dependents(g, layer[i]) * g.Keys == Dependents(g, layer[i]);
  }

  method PublishLayer<N(!new,==)>(
    g: Graph<N>, adj: map<N, seq<N>>, layer: seq<N>, inDegree: map<N, nat>, published: set<N>)
    returns (inDegree': map<N, nat>, next: seq<N>, published': set<N>)
    requires ListsDependents(g, adj, g.Keys) && Counts(g, inDegree, published)
    requires NoDups(layer) && published !! Elements(layer)
    ensures published' == published + Elements(layer)
    ensures MidLayer(g, published, published', inDegree', next)
  {
    inDegree', next, published' := inDegree, [], published;
    LayerStarts(g, published, inDegree);
    for i := 0 to |layer|
      invariant published' == published + Elements(layer[..i])
      invariant MidLayer(g, published, published', inDegree', next)
    {
      var node := layer[i];
      NodeOfLayer(g, adj, layer, published, i);
      ReleasedStep(g, published, published', node);
      inDegree', next := PublishOne(g, node, Neighbors(adj, node), inDegree', next, published');
      published' := published' + {node};
    }
    assert layer[..|layer|] == layer;
  }

  // ---------------------------------------------------------------------------------------------
  // Layers
  // ---------------------------------------------------------------------------------------------

  /** All nodes of the first `n` layers. */
  function InLayers<N(==)>(layers: seq<seq<N>>, n: nat): set<N>
    requires n <= |layers|
  {
    if n == 0 then {} else InLayers(layers, n - 1) + Elements(layers[n - 1])
  }

  /** Layer `i` is, in name order, everything that the layers before it make ready. */
  ghost predicate LayerOk<N>(le: (N, N) -> bool, g: Graph<N>, layers: seq<seq<N>>, i: nat)
    requires i < |layers|
  {
    && layers[i] != [] && Sorted(le, layers[i]) && NoDups(layers[i])
    && Elements(layers[i]) == Ready(g, InLayers(layers, i))
  }

  ghost predicate Layered<N>(le: (N, N) -> bool, g: Graph<N>, layers: seq<seq<N>>) {
    forall i :: 0 <= i < |layers| ==> LayerOk(le, g, layers, i)
  }

  lemma {:induction false} InLayersPrefix<N>(layers: seq<seq<N>>, layer: seq<N>, n: nat)
    requires n <= |layers|
    ensures InLayers(layers, n) == InLayers(layers + [layer], n)
  {
    if n == 0 {
    } else {
      InLayersPrefix(layers, layer, n - 1);
    }
  }

  lemma AppendLayer<N>(le: (N, N) -> bool, g: Graph<N>, layers: seq<seq<N>>, layer: seq<N>)
    requires Layered(le, g, layers) && layer != [] && Sorted(le, layer) && NoDups(layer)
    requires Elements(layer) == Ready(g, InLayers(layers, |layers|))
    ensures Layered(le, g, layers + [layer])
    ensures InLayers(layers + [layer], |layers| + 1) == InLayers(layers, |layers|) + Elements(layer)
  {
    forall i | 0 <= i < |layers| + 1 ensures LayerOk(le, g, layers + [layer], i) {
      InLayersPrefix(layers, layer, i);
      if i < |layers| {
        assert LayerOk(le, g, layers, i);
      }
    }
    InLayersPrefix(layers, layer, |layers|);
  }

  /** Published nodes have only published dependencies. */
  ghost predicate Settled<N>(g: Graph<N>, done: set<N>) {
    done <= g.Keys && forall x :: x in done ==> g[x] <= done
  }

  lemma NextQueueIsReady<N>(g: Graph<N>, done: set<N>)
    requires Settled(g, done)
    ensures ReleasedBy(g, done, done + Ready(g, done)) == Ready(g, done + Ready(g, done))
    ensures Settled(g, done + Ready(g, done))
  {
  }

  /** `queue` holds the nodes outside `left` that have no dependency. */
  ghost predicate Starts<N>(g: Graph<N>, queue: seq<N>, left: set<N>) {
    NoDups(queue) && Elements(queue) == Ready(g, {}) - left
  }

  lemma StartOne<N>(g: Graph<N>, queue: seq<N>, left: set<N>, x: N)
    requires Starts(g, queue, left) && x in left && x in g
    ensures Starts(g, if |g[x] - {}| == 0 then queue + [x] else queue, left - {x})
  {
    assert g[x] - {} == g[x];
    if |g[x]| == 0 {
      assert x in Ready(g, {});
      assert x !in Elements(queue);
      ElementsAppend(queue, x);
      assert Ready(g, {}) - (left - {x}) == (Ready(g, {}) - left) + {x};
    } else {
      assert Ready(g, {}) - (left - {x}) == Ready(g, {}) - left;
    }
  }

  /** The nodes with no dependency. */
  method StartQueue<N(==)>(g: Graph<N>, inDegree: map<N, nat>) returns (queue: seq<N>)
    requires Counts(g, inDegree, {})
    ensures Starts(g, queue, {})
  {
    queue := [];
    var names := g.Keys;
    assert Starts(g, queue, names);
    while names != {}
      invariant names <= g.Keys && Starts(g, queue, names)
      decreases names
    {
      var x :| x in names;
      StartOne(g, queue, names, x);
      if inDegree[x] == 0 {
        queue := queue + [x];
      }
      names := names - {x};
    }
  }

  /** State between two layers: the queue is exactly what is ready next. */
  ghost predicate BetweenLayers<N>(
    le: (N, N) -> bool, g: Graph<N>, layers: seq<seq<N>>, published: set<N>, inDegree: map<N, nat>, queue: seq<N>)
  {
    && Layered(le, g, layers) && published == InLayers(layers, |layers|)
    && Settled(g, published) && Counts(g, inDegree, published)
    && NoDups(queue) && Elements(queue) == Ready(g, published)
  }

  lemma FirstLayer<N>(le: (N, N) -> bool, g: Graph<N>, inDegree: map<N, nat>, queue: seq<N>)
    requires Counts(g, inDegree, {}) && Starts(g, queue, {})
    ensures BetweenLayers(le, g, [], {}, inDegree, queue)
  {
    assert Ready(g, {}) - {} == Ready(g, {});
  }

  lemma NextLayer<N>(
    le: (N, N) -> bool, g: Graph<N>, layers: seq<seq<N>>, published: set<N>, inDegree: map<N, nat>, queue: seq<N>,
    layer: seq<N>, inDegree': map<N, nat>, next: seq<N>)
    requires BetweenLayers(le, g, layers, published, inDegree, queue) && queue != []
    requires Sorted(le, layer) && NoDups(layer) && Elements(layer) == Elements(queue)
    requires MidLayer(g, published, published + Elements(layer), inDegree', next)
    ensures BetweenLayers(le, g, layers + [layer], published + Elements(layer), inDegree', next)
    ensures g.Keys - (published + Elements(layer)) < g.Keys - published
  {
    assert queue[0] in Elements(queue);
    assert queue[0] in Elements(layer);
    AppendLayer(le, g, layers, layer);
    NextQueueIsReady(g, published);
  }

  /** The layering loop on the dependency graph. */
  method LayerGraph<N(!new,==)>(le: (N, N) -> bool, g: Graph<N>) returns (layers: seq<seq<N>>, published: set<N>)
    requires TotalOrder(le)
    ensures Layered(le, g, layers) && published == InLayers(layers, |layers|)
    ensures Settled(g, published) && Ready(g, published) == {}
  {
    var inDegree, adj := ReverseEdges(g);
    var queue := StartQueue(g, inDegree);
    layers, published := [], {};
    FirstLayer(le, g, inDegree, queue);
    while queue != []
      invariant BetweenLayers(le, g, layers, published, inDegree, queue)
      decreases g.Keys - published
    {
      var layer := Sort(le, queue);
      ghost var before, degrees, last := published, inDegree, queue;
      inDegree, queue, published := PublishLayer(g, adj, layer, inDegree, published);
      NextLayer(le, g, layers, before, degrees, last, layer, inDegree, queue);
      layers := layers + [layer];
    }
    assert Elements(queue) == {};
  }
}
