/** The colour-model router of Chart.js: a breadth-first search over the table of
    direct conversions, and the composition of conversions along parent links. */
module ColorRouter {
  import opened Wrappers

  type Model = string

  /** `adjacents[m]` lists the keys of `conversions[m]`; `edge(m, n)` is `conversions[m][n]`. */
  datatype Conversions<!C(!new)> =
    Conversions(adjacents: map<Model, seq<Model>>, edge: (Model, Model) -> (C -> C))
  {
    ghost predicate Edge(u: Model, v: Model) {
      u in adjacents && v in adjacents[u]
    }

    /** Every conversion leads to a model of the table (otherwise `graph[adjacent]` is undefined),
        and no model has the empty, falsy, name. */
    ghost predicate WellFormed() {
      && "" !in adjacents
      && forall u, v :: Edge(u, v) ==> v in adjacents
    }

    ghost predicate Walk(p: seq<Model>, s: Model, t: Model) {
      && 0 < |p| && p[0] == s && p[|p| - 1] == t
      && forall i :: 0 <= i < |p| - 1 ==> Edge(p[i], p[i + 1])
    }

    ghost predicate Reachable(s: Model, t: Model) {
      exists p :: Walk(p, s, t)
    }

    /** `d` is the least number of edges on a walk from `s` to `t`, or -1 when there is none. */
    ghost predicate Distance(s: Model, t: Model, d: int) {
      if d == -1 then !Reachable(s, t)
      else (exists p :: Walk(p, s, t) && |p| == d + 1) && (forall p :: Walk(p, s, t) ==> d + 1 <= |p|)
    }

    /** Runs a colour through the direct conversions along `p`, first edge first. */
    function Along(p: seq<Model>, x: C): C {
      if |p| <= 1 then x else Along(p[1..], edge(p[0], p[1])(x))
    }
  }

  /** A colour on its way along the models of `p`: `x` at the first, `y` at the last, and at each model what the direct
      conversion makes of the colour at the model before. */
  ghost predicate Carries<C(!new)>(c: Conversions<C>, p: seq<Model>, x: C, y: C) {
    exists colors: seq<C> :: |colors| == |p| && Stages(c, p, colors, x, y)
  }

  ghost predicate Stages<C(!new)>(c: Conversions<C>, p: seq<Model>, colors: seq<C>, x: C, y: C)
    requires |colors| == |p|
  {
    && |p| > 0 && colors[0] == x && colors[|p| - 1] == y
    && forall i, j :: 0 <= i && j == i + 1 < |p| ==> colors[j] == c.edge(p[i], p[j])(colors[i])
  }

  lemma {:induction false} AlongCarries<C(!new)>(c: Conversions<C>, p: seq<Model>, x: C)
    requires p != []
    ensures Carries(c, p, x, c.Along(p, x))
  {
    if |p| == 1 {
      assert Stages(c, p, [x], x, x);
    } else {
      var next, y := c.edge(p[0], p[1])(x), c.Along(p, x);
      AlongCarries(c, p[1..], next);
      var colors: seq<C> :| |colors| == |p[1..]| && Stages(c, p[1..], colors, next, y);
      var all := [x] + colors;
      forall i, j | 0 <= i && j == i + 1 < |p| ensures all[j] == c.edge(p[i], p[j])(all[i]) {
        assert all[j] == colors[i];
        if i > 0 {
          assert colors[i] == c.edge(p[1..][i - 1], p[1..][i])(colors[i - 1]);
        }
      }
      assert Stages(c, p, all, x, y);
    }
  }

  datatype Node = Node(distance: int, parent: Option<Model>)

  type Graph = map<Model, Node>

  ghost predicate Reached(g: Graph, v: Model) {
    v in g && g[v].distance != -1
  }

  /** The source is the root; any other reached model hangs below a parent one step closer. */
  ghost predicate Hangs<C(!new)>(c: Conversions<C>, source: Model, g: Graph, v: Model)
    requires v in g
  {
    if v == source then g[v] == Node(0, None)
    else if g[v].distance == -1 then g[v].parent == None
    else
      && g[v].parent.Some? && g[v].parent.value in g
      && c.Edge(g[v].parent.value, v)
      && 0 <= g[g[v].parent.value].distance == g[v].distance - 1
  }

  ghost predicate Tree<C(!new)>(c: Conversions<C>, source: Model, g: Graph) {
    && g.Keys == c.adjacents.Keys && source in g
    && forall v {:trigger Hangs(c, source, g, v)} :: v in g ==> Hangs(c, source, g, v)
  }

  /** No edge leaving a model of `done` is missed or could shorten a distance. */
  ghost predicate Settled<C(!new)>(c: Conversions<C>, g: Graph, done: set<Model>) {
    forall u, v :: u in done && u in g && c.Edge(u, v) ==>
      v in g && g[v].distance != -1 && g[v].distance <= g[u].distance + 1
  }

  /** In a parent tree the walk up from a reached model has exactly `distance` edges. */
  lemma {:induction false} TreeWalk<C(!new)>(c: Conversions<C>, source: Model, g: Graph, v: Model)
    returns (p: seq<Model>)
    requires Tree(c, source, g) && Reached(g, v)
    ensures c.Walk(p, source, v) && |p| == g[v].distance + 1
    decreases g[v].distance
  {
    assert Hangs(c, source, g, v);
    if v == source {
      p := [source];
    } else {
      var q := TreeWalk(c, source, g, g[v].parent.value);
      p := q + [v];
    }
  }

  /** When all reached models are settled, no walk to a model is shorter than its distance. */
  lemma {:induction false} NoShortcut<C(!new)>(c: Conversions<C>, source: Model, g: Graph, p: seq<Model>, v: Model)
    requires Tree(c, source, g) && Settled(c, g, set u | u in g && g[u].distance != -1)
    requires c.Walk(p, source, v)
    ensures Reached(g, v) && g[v].distance <= |p| - 1
    decreases |p|
  {
    assert Hangs(c, source, g, source);
    if |p| > 1 {
      var q := p[..|p| - 1];
      var u := q[|q| - 1];
      assert c.Edge(u, v) by { assert c.Edge(p[|p| - 2], p[|p| - 1]); }
      NoShortcut(c, source, g, q, u);
    }
  }

  lemma TrueDistances<C(!new)>(c: Conversions<C>, source: Model, g: Graph)
    requires Tree(c, source, g) && Settled(c, g, set u | u in g && g[u].distance != -1)
    ensures forall v :: v in g ==> c.Distance(source, v, g[v].distance)
  {
    forall v | v in g ensures c.Distance(source, v, g[v].distance) {
      forall p | c.Walk(p, source, v) ensures Reached(g, v) && g[v].distance + 1 <= |p| {
        NoShortcut(c, source, g, p, v);
      }
      if g[v].distance != -1 {
        var p := TreeWalk(c, source, g, v);
      }
    }
  }

  /** The queue holds, each once and farthest first, the reached models that are not done yet. */
  ghost predicate Frontier(g: Graph, queue: seq<Model>, done: set<Model>) {
    && (forall i :: 0 <= i < |queue| ==> Reached(g, queue[i]) && queue[i] !in done)
    && (forall i, j :: 0 <= i < j < |queue| ==> queue[i] != queue[j] && g[queue[j]].distance <= g[queue[i]].distance)
    && (forall v :: Reached(g, v) <==> v in done || v in queue)
  }

  /** Nothing reached lies more than one step beyond distance `d`. */
  ghost predicate Within(g: Graph, d: int) {
    forall v :: Reached(g, v) ==> g[v].distance <= d + 1
  }

  /** The search while it scans the neighbours of `current`, of which `seen` are behind it. */
  ghost predicate Scanning<C(!new)>(c: Conversions<C>, source: Model, g: Graph, queue: seq<Model>,
                                    done: set<Model>, current: Model, seen: set<Model>) {
    && Tree(c, source, g) && Frontier(g, queue, done)
    && Reached(g, current) && current in done
    && Settled(c, g, done - {current})
    && Within(g, g[current].distance)
    && (forall v :: v in queue ==> g[current].distance <= g[v].distance)
    && (forall v :: v in seen ==> Reached(g, v))
  }

  lemma Discover<C(!new)>(c: Conversions<C>, source: Model, g: Graph, queue: seq<Model>,
                          done: set<Model>, current: Model, seen: set<Model>, v: Model)
    requires Scanning(c, source, g, queue, done, current, seen)
    requires c.Edge(current, v) && v in g && g[v].distance == -1
    ensures Scanning(c, source, g[v := Node(g[current].distance + 1, Some(current))], [v] + queue, done, current,
                     seen + {v})
  {
    var g' := g[v := Node(g[current].distance + 1, Some(current))];
    DistanceNonNegative(c, source, g, current);
    DiscoverTree(c, source, g, current, v);
    assert forall u :: Reached(g', u) <==> Reached(g, u) || u == v;
  }

  lemma DiscoverTree<C(!new)>(c: Conversions<C>, source: Model, g: Graph, current: Model, v: Model)
    requires Tree(c, source, g) && Reached(g, current) && g[current].distance >= 0
    requires c.Edge(current, v) && v in g && g[v].distance == -1
    ensures Tree(c, source, g[v := Node(g[current].distance + 1, Some(current))])
  {
    var g' := g[v := Node(g[current].distance + 1, Some(current))];
    forall u | u in g' ensures Hangs(c, source, g', u) {
      assert Hangs(c, source, g, u);
    }
  }

  lemma DistanceNonNegative<C(!new)>(c: Conversions<C>, source: Model, g: Graph, v: Model)
    requires Tree(c, source, g) && Reached(g, v)
    ensures 0 <= g[v].distance
  {
    assert Hangs(c, source, g, v);
  }

  /** Taking the nearest queued model starts a scan. */
  lemma Dequeue<C(!new)>(c: Conversions<C>, source: Model, g: Graph, queue: seq<Model>, done: set<Model>)
    requires |queue| > 0
    requires Tree(c, source, g) && Frontier(g, queue, done) && Settled(c, g, done)
    requires Within(g, g[queue[|queue| - 1]].distance)
    ensures var current := queue[|queue| - 1];
            Scanning(c, source, g, queue[..|queue| - 1], done + {current}, current, {})
  {
    var current := queue[|queue| - 1];
    assert done + {current} - {current} == done;
    assert queue == queue[..|queue| - 1] + [current];
  }

  /** A finished scan leaves `current` settled and the next nearest model in front. */
  lemma Scanned<C(!new)>(c: Conversions<C>, source: Model, g: Graph, queue: seq<Model>,
                         done: set<Model>, current: Model, seen: set<Model>)
    requires Scanning(c, source, g, queue, done, current, seen)
    requires forall v :: c.Edge(current, v) ==> v in seen
    ensures Settled(c, g, done)
    ensures |queue| > 0 ==> Within(g, g[queue[|queue| - 1]].distance)
  {
  }

  /** The inner loop: every neighbour of `current` not reached before hangs on it and is queued. */
  method ScanAdjacents<C(!new)>(c: Conversions<C>, source: Model, g: Graph, q: seq<Model>,
                                ghost done: set<Model>, current: Model) returns (graph: Graph, queue: seq<Model>)
    requires c.WellFormed() && current in c.adjacents
    requires Scanning(c, source, g, q, done, current, {})
    ensures Tree(c, source, graph) && Frontier(graph, queue, done) && Settled(c, graph, done)
    ensures |queue| > 0 ==> Within(graph, graph[queue[|queue| - 1]].distance)
  {
    graph, queue := g, q;
    var adjacents := c.adjacents[current];
    ghost var seen: set<Model> := {};
    for i := 0 to |adjacents|
      invariant Scanning(c, source, graph, queue, done, current, seen)
      invariant forall v :: v in adjacents[..i] ==> v in seen
    {
      var adjacent := adjacents[i];
      assert c.Edge(current, adjacent);
      if graph[adjacent].distance == -1 {
        Discover(c, source, graph, queue, done, current, seen, adjacent);
        graph := graph[adjacent := Node(graph[current].distance + 1, Some(current))];
        queue := [adjacent] + queue;
      }
      seen := seen + {adjacent};
      assert adjacents[..i + 1] == adjacents[..i] + [adjacent];
    }
    assert adjacents[..|adjacents|] == adjacents;
    Scanned(c, source, graph, queue, done, current, seen);
  }

  method DeriveBFS<C(!new)>(c: Conversions<C>, fromModel: Model) returns (graph: Graph)
    requires c.WellFormed() && fromModel in c.adjacents
    ensures Tree(c, fromModel, graph)
    ensures forall v :: v in c.adjacents ==> c.Distance(fromModel, v, graph[v].distance)
  {
    graph := map m | m in c.adjacents :: Node(-1, None);
    var queue := [fromModel];  // grows at the front, is read from the back
    graph := graph[fromModel := Node(0, None)];
    ghost var done: set<Model> := {};

    while |queue| > 0
      invariant Tree(c, fromModel, graph) && Frontier(graph, queue, done) && Settled(c, graph, done)
      invariant |queue| > 0 ==> Within(graph, graph[queue[|queue| - 1]].distance)
      invariant done <= c.adjacents.Keys
      decreases c.adjacents.Keys - done
    {
      Dequeue(c, fromModel, graph, queue, done);
      var current := queue[|queue| - 1];
      queue := queue[..|queue| - 1];
      done := done + {current};
      graph, queue := ScanAdjacents(c, fromModel, graph, queue, done, current);
    }
    assert done == set u | u in graph && graph[u].distance != -1;
    TrueDistances(c, fromModel, graph);
  }

  function Link<C>(from: C -> C, to: C -> C): C -> C {
    args => to(from(args))
  }

  /** A synthesised conversion together with its `.conversion` property. */
  datatype Routed<!C> = Routed(fn: C -> C, conversion: seq<Model>)

  /** `r` follows a shortest walk from `s` to `t` and computes the composition of its edges. */
  ghost predicate Routes<C(!new)>(c: Conversions<C>, s: Model, t: Model, r: Routed<C>) {
    && c.Walk(r.conversion, s, t)
    && c.Distance(s, t, |r.conversion| - 1)
    && forall x :: Carries(c, r.conversion, x, r.fn(x))
  }

  method WrapConversion<C(!new)>(c: Conversions<C>, ghost fromModel: Model, toModel: Model, graph: Graph)
    returns (r: Routed<C>)
    requires c.WellFormed() && Tree(c, fromModel, graph)
    requires toModel in graph && graph[toModel].parent.Some?
    ensures c.Walk(r.conversion, fromModel, toModel) && |r.conversion| == graph[toModel].distance + 1
    ensures forall x :: Carries(c, r.conversion, x, r.fn(x))
  {
    assert Hangs(c, fromModel, graph, toModel);
    var cur := graph[toModel].parent.value;
    assert Hangs(c, fromModel, graph, cur);
    var path := [cur, toModel];
    var fn := c.edge(cur, toModel);
    while graph[cur].parent.Some?
      invariant Reached(graph, cur) && Hangs(c, fromModel, graph, cur) && |path| > 1 && path[0] == cur
      invariant c.Walk(path, cur, toModel)
      invariant |path| + graph[cur].distance == graph[toModel].distance + 1
      invariant forall x :: fn(x) == c.Along(path, x)
      decreases graph[cur].distance
    {
      var parent := graph[cur].parent.value;
      var longer := [parent] + path;
      assert longer[1..] == path;
      assert Hangs(c, fromModel, graph, parent);
      fn := Link(c.edge(parent, cur), fn);
      path := longer;
      cur := parent;
    }
    r := Routed(fn, path);
    forall x ensures Carries(c, path, x, fn(x)) {
      AlongCarries(c, path, x);
    }
  }

  method Route<C(!new)>(c: Conversions<C>, fromModel: Model) returns (conversion: map<Model, Routed<C>>)
    requires c.WellFormed() && fromModel in c.adjacents
    ensures conversion.Keys == set t | t in c.adjacents && t != fromModel && c.Reachable(fromModel, t)
    ensures forall t :: t in conversion ==> Routes(c, fromModel, t, conversion[t])
  {
    var graph := DeriveBFS(c, fromModel);
    conversion := map[];
    var models := graph.Keys;
    while models != {}
      invariant models <= graph.Keys
      invariant forall t :: t in conversion <==> t in graph.Keys - models && t != fromModel && c.Reachable(fromModel, t)
      invariant forall t :: t in conversion ==> Routes(c, fromModel, t, conversion[t])
      decreases models
    {
      var toModel :| toModel in models;
      models := models - {toModel};
      assert Hangs(c, fromModel, graph, toModel);
      if graph[toModel].parent.Some? {
        var routed := WrapConversion(c, fromModel, toModel, graph);
        conversion := conversion[toModel := routed];
      }
    }
  }
}
