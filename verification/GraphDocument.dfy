/**
 * The nodes and edges of _validate_graph_document (framework/editor_api.py:229-312): they are
 * accepted exactly if they are well formed and have no directed cycle.
 */
module GraphDocument {

  /** idOk: the id matches _GRAPH_TOKEN; fieldsOk: the other field checks of the node pass. */
  datatype Node = Node(id: string, idOk: bool, fieldsOk: bool)

  /** tokensOk: no unknown fields, and id and ports match _GRAPH_TOKEN. */
  datatype Edge = Edge(id: string, from: string, fromPort: string, to: string, toPort: string, tokensOk: bool)

  datatype GraphError =
    | TooManyNodes | TooManyEdges | BadNode | DuplicateNode
    | BadEdge | DuplicateEdge | MissingNode | SelfLoop | InputTaken | DuplicateConnection
    | Cyclic

  datatype Verdict = Valid | Invalid(error: GraphError)

  type Adjacency = map<string, set<string>>

  // ---------------------------------------------------------------- specification

  ghost predicate NodesOk(nodes: seq<Node>)
  {
    && (forall i :: 0 <= i < |nodes| ==> nodes[i].idOk && nodes[i].fieldsOk)
    && (forall i, j :: 0 <= i < j < |nodes| ==> nodes[i].id != nodes[j].id)
  }

  function Ids(nodes: seq<Node>): (ids: set<string>)
  {
    set n | n in nodes :: n.id
  }

  ghost predicate EdgesOk(nodes: seq<Node>, edges: seq<Edge>)
  {
    && (forall i :: 0 <= i < |edges| ==>
          && edges[i].tokensOk && edges[i].from in Ids(nodes) && edges[i].to in Ids(nodes)
          && edges[i].from != edges[i].to)
    && (forall i, j :: 0 <= i < j < |edges| ==> edges[i].id != edges[j].id)
    && (forall i, j :: 0 <= i < j < |edges| ==> (edges[i].to, edges[i].toPort) != (edges[j].to, edges[j].toPort))
  }

  ghost predicate WellFormed(nodes: seq<Node>, edges: seq<Edge>)
  {
    |nodes| <= 500 && |edges| <= 2000 && NodesOk(nodes) && EdgesOk(nodes, edges)
  }

  ghost predicate Connected(edges: seq<Edge>, u: string, v: string)
  {
    exists e :: e in edges && e.from == u && e.to == v
  }

  /** A closed walk of at least one edge. */
  ghost predicate IsCycle(edges: seq<Edge>, walk: seq<string>)
  {
    && |walk| >= 2 && walk[0] == walk[|walk| - 1]
    && forall i :: 0 <= i < |walk| - 1 ==> Connected(edges, walk[i], walk[i + 1])
  }

  ghost predicate HasCycle(edges: seq<Edge>)
  {
    exists walk :: IsCycle(edges, walk)
  }

  /** An order of all nodes in which every edge points forward. */
  ghost predicate IsTopological(nodes: seq<Node>, edges: seq<Edge>, order: seq<string>)
  {
    && Distinct(order)
    && (forall id :: id in order <==> id in Ids(nodes))
    && (forall i, j :: 0 <= i < |order| && 0 <= j < |order| && Connected(edges, order[i], order[j]) ==> i < j)
  }

  ghost predicate Distinct(q: seq<string>)
  {
    forall i, j :: 0 <= i < j < |q| ==> q[i] != q[j]
  }

  // ---------------------------------------------------------------- Kahn's algorithm

  ghost predicate Closed(ids: set<string>, adj: Adjacency)
  {
    adj.Keys == ids && forall u :: u in ids ==> adj[u] <= ids
  }

  ghost function Preds(ids: set<string>, adj: Adjacency, v: string): (ps: set<string>)
    requires Closed(ids, adj)
  {
    set u | u in ids && v in adj[u]
  }

  ghost function Waiting(ids: set<string>, adj: Adjacency, order: seq<string>, v: string): (ps: set<string>)
    requires Closed(ids, adj)
  {
    set u | u in Preds(ids, adj, v) && u !in order
  }

  /** Everything in order comes after all its predecessors. */
  ghost predicate Forward(ids: set<string>, adj: Adjacency, order: seq<string>)
    requires Closed(ids, adj)
  {
    && Distinct(order)
    && (forall i :: 0 <= i < |order| ==> order[i] in ids)
    && (forall i, u :: 0 <= i < |order| && u in Preds(ids, adj, order[i]) ==> u in order[..i])
  }

  ghost function Among(done: set<string>, adj: Adjacency, v: string): (ps: set<string>)
    requires done <= adj.Keys
  {
    set u | u in done && v in adj[u]
  }

  /** editor_api.py:300-301: one more predecessor for every target. */
  method CountTargets(targets0: set<string>, before: map<string, int>) returns (indegree: map<string, int>)
    requires targets0 <= before.Keys
    ensures indegree.Keys == before.Keys
    ensures forall v :: v in before ==> indegree[v] == before[v] + (if v in targets0 then 1 else 0)
  {
    indegree := before;
    var targets := targets0;
    while targets != {}
      invariant targets <= targets0 && indegree.Keys == before.Keys
      invariant forall v :: v in before ==>
                  indegree[v] == before[v] + (if v in targets0 && v !in targets then 1 else 0)
    {
      var target :| target in targets;
      indegree := indegree[target := indegree[target] + 1];
      targets := targets - {target};
    }
  }

  lemma AmongGrows(done: set<string>, adj: Adjacency, u: string, v: string)
    requires done <= adj.Keys && u in adj && u !in done
    ensures |Among(done + {u}, adj, v)| == |Among(done, adj, v)| + (if v in adj[u] then 1 else 0)
  {
    assert Among(done + {u}, adj, v) == if v in adj[u] then Among(done, adj, v) + {u} else Among(done, adj, v);
  }

  ghost predicate Counted(ids: set<string>, adj: Adjacency, done: set<string>, indegree: map<string, int>)
    requires done <= adj.Keys
  {
    indegree.Keys == ids && forall v :: v in ids ==> indegree[v] == |Among(done, adj, v)|
  }

  lemma CountedMore(
    ids: set<string>, adj: Adjacency, done: set<string>, u: string, before: map<string, int>, after: map<string, int>)
    requires Closed(ids, adj) && done <= ids && u in ids && u !in done && Counted(ids, adj, done, before)
    requires after.Keys == ids
    requires forall v :: v in before ==> after[v] == before[v] + (if v in adj[u] then 1 else 0)
    ensures Counted(ids, adj, done + {u}, after)
  {
    forall v | v in ids ensures after[v] == |Among(done + {u}, adj, v)| {
      AmongGrows(done, adj, u, v);
    }
  }

  /** editor_api.py:298-301 */
  method Indegrees(ids: set<string>, adj: Adjacency) returns (indegree: map<string, int>)
    requires Closed(ids, adj)
    ensures indegree.Keys == ids
    ensures forall v :: v in ids ==> indegree[v] == |Preds(ids, adj, v)|
  {
    hide Among;
    hide Preds;
    indegree := map v | v in ids :: 0;
    var sources := ids;
    NothingCounted(ids, adj);
    assert ids - sources == {};
    while sources != {}
      invariant sources <= ids && Counted(ids, adj, ids - sources, indegree)
    {
      var source :| source in sources;
      ghost var before := indegree;
      indegree := CountTargets(adj[source], indegree);
      CountedMore(ids, adj, ids - sources, source, before, indegree);
      assert ids - (sources - {source}) == (ids - sources) + {source};
      sources := sources - {source};
    }
    assert ids - sources == ids;
    forall v | v in ids ensures indegree[v] == |Preds(ids, adj, v)| {
      AmongAll(ids, adj, v);
    }
  }

  lemma AmongAll(ids: set<string>, adj: Adjacency, v: string)
    requires Closed(ids, adj)
    ensures Among(ids, adj, v) == Preds(ids, adj, v)
  {
  }

  lemma NothingCounted(ids: set<string>, adj: Adjacency)
    requires Closed(ids, adj)
    ensures Counted(ids, adj, {}, map v | v in ids :: 0)
  {
    assert forall v :: Among({}, adj, v) == {};
  }

  /** A node may be taken when none of its predecessors is waiting. */
  ghost predicate ReadyOk(ids: set<string>, indegree: map<string, int>, order: seq<string>, ready: seq<string>)
    requires indegree.Keys == ids
  {
    Distinct(ready) && forall v :: v in ready <==> v in ids && v !in order && indegree[v] == 0
  }

  ghost predicate Counts(ids: set<string>, adj: Adjacency, order: seq<string>, indegree: map<string, int>)
    requires Closed(ids, adj)
  {
    indegree.Keys == ids && forall v :: v in ids ==> indegree[v] == |Waiting(ids, adj, order, v)|
  }

  /** editor_api.py:302-310: visited nodes, in the order in which they were visited. */
  method Kahn(ids: set<string>, adj: Adjacency) returns (visited: nat, ghost order: seq<string>)
    requires Closed(ids, adj)
    ensures visited == |order| <= |ids| && Forward(ids, adj, order)
    ensures forall v :: v in ids && v !in order ==> Waiting(ids, adj, order, v) != {}
  {
    var indegree := Indegrees(ids, adj);
    var ready := InitialReady(ids, indegree);
    visited, order := 0, [];
    NothingVisited(ids, adj, indegree);
    while ready != []
      invariant visited == |order| <= |ids| && Forward(ids, adj, order)
      invariant Counts(ids, adj, order, indegree) && ReadyOk(ids, indegree, order, ready)
      decreases |ids| - |order|
    {
      var current := ready[|ready| - 1];
      TakeReady(ids, adj, order, indegree, ready);
      ready := ready[..|ready| - 1];
      visited := visited + 1;
      indegree, ready := Relax(ids, adj, order, current, indegree, ready);
      order := order + [current];
    }
    NoneReady(ids, adj, order, indegree);
  }

  lemma NothingVisited(ids: set<string>, adj: Adjacency, indegree: map<string, int>)
    requires Closed(ids, adj) && indegree.Keys == ids
    requires forall v :: v in ids ==> indegree[v] == |Preds(ids, adj, v)|
    ensures Counts(ids, adj, [], indegree)
  {
    forall v | v in ids ensures indegree[v] == |Waiting(ids, adj, [], v)| {
      assert Waiting(ids, adj, [], v) == Preds(ids, adj, v);
    }
  }

  /** Taking the last ready node extends the order. */
  lemma TakeReady(
    ids: set<string>, adj: Adjacency, order: seq<string>, indegree: map<string, int>, ready: seq<string>)
    requires Closed(ids, adj) && Forward(ids, adj, order) && Counts(ids, adj, order, indegree)
    requires ReadyOk(ids, indegree, order, ready) && ready != []
    ensures var current := ready[|ready| - 1];
            && current in ids && current !in order
            && Forward(ids, adj, order + [current]) && |order| + 1 <= |ids|
            && ReadyOk(ids, indegree, order + [current], ready[..|ready| - 1])
            && forall v :: v in adj[current] ==> v !in order + [current]
  {
    var n := |ready| - 1;
    var current := ready[n];
    assert current in ready;
    assert Waiting(ids, adj, order, current) == {};
    Extend(ids, adj, order, current);
    OrderFits(ids, order + [current]);
    forall v ensures v in ready[..n] <==> v in ready && v != current {
      assert ready == ready[..n] + [current];
    }
  }

  lemma NoneReady(ids: set<string>, adj: Adjacency, order: seq<string>, indegree: map<string, int>)
    requires Closed(ids, adj) && Counts(ids, adj, order, indegree) && ReadyOk(ids, indegree, order, [])
    ensures forall v :: v in ids && v !in order ==> Waiting(ids, adj, order, v) != {}
  {
  }

  method InitialReady(ids: set<string>, indegree: map<string, int>) returns (ready: seq<string>)
    requires indegree.Keys == ids
    ensures ReadyOk(ids, indegree, [], ready)
  {
    ready := [];
    var rest := ids;
    while rest != {}
      invariant rest <= ids && Distinct(ready)
      invariant forall v :: v in ready <==> v in ids - rest && indegree[v] == 0
    {
      var v :| v in rest;
      if indegree[v] == 0 { ready := ready + [v]; }
      rest := rest - {v};
    }
  }

  /** editor_api.py:307-310: current's successors each lose one waiting predecessor. */
  method Relax(
    ids: set<string>, adj: Adjacency, ghost order: seq<string>, current: string,
    indegree0: map<string, int>, ready0: seq<string>)
    returns (indegree: map<string, int>, ready: seq<string>)
    requires Closed(ids, adj) && current in ids && current !in order && Counts(ids, adj, order, indegree0)
    requires ReadyOk(ids, indegree0, order + [current], ready0)
    requires forall v :: v in adj[current] ==> v !in order + [current]
    ensures Counts(ids, adj, order + [current], indegree)
    ensures ReadyOk(ids, indegree, order + [current], ready)
  {
    ghost var order' := order + [current];
    ghost var left := map v | v in ids :: |Waiting(ids, adj, order', v)|;
    forall v | v in ids ensures indegree0[v] == left[v] + (if v in adj[current] then 1 else 0) {
      WaitingShrinks(ids, adj, order, current, v);
    }
    indegree, ready := RelaxTargets(ids, adj[current], order', left, indegree0, ready0);
  }

  method RelaxTargets(
    ids: set<string>, targets0: set<string>, ghost order: seq<string>, ghost left: map<string, int>,
    indegree0: map<string, int>, ready0: seq<string>)
    returns (indegree: map<string, int>, ready: seq<string>)
    requires targets0 <= ids && indegree0.Keys == ids && left.Keys == ids
    requires forall v :: v in ids ==> left[v] >= 0 && indegree0[v] == left[v] + (if v in targets0 then 1 else 0)
    requires forall v :: v in targets0 ==> v !in order
    requires ReadyOk(ids, indegree0, order, ready0)
    ensures indegree == left && ReadyOk(ids, indegree, order, ready)
  {
    indegree, ready := indegree0, ready0;
    var targets := targets0;
    while targets != {}
      invariant targets <= targets0 && indegree.Keys == ids
      invariant forall v :: v in ids ==> indegree[v] == left[v] + (if v in targets then 1 else 0)
      invariant ReadyOk(ids, indegree, order, ready)
    {
      var target :| target in targets;
      assert target !in ready;
      indegree := indegree[target := indegree[target] - 1];
      if indegree[target] == 0 {
        ready := ready + [target];
      }
      targets := targets - {target};
    }
  }

  lemma WaitingShrinks(ids: set<string>, adj: Adjacency, order: seq<string>, current: string, v: string)
    requires Closed(ids, adj) && current in ids && current !in order
    ensures |Waiting(ids, adj, order, v)|
         == |Waiting(ids, adj, order + [current], v)| + (if v in adj[current] then 1 else 0)
  {
    var was, now := Waiting(ids, adj, order, v), Waiting(ids, adj, order + [current], v);
    if v in adj[current] {
      assert was == now + {current};
    } else {
      assert was == now;
    }
  }

  lemma Extend(ids: set<string>, adj: Adjacency, order: seq<string>, current: string)
    requires Closed(ids, adj) && Forward(ids, adj, order) && current in ids && current !in order
    requires Waiting(ids, adj, order, current) == {}
    ensures Forward(ids, adj, order + [current])
    ensures forall v :: v in adj[current] ==> v !in order + [current]
  {
    var order' := order + [current];
    forall i, u | 0 <= i < |order'| && u in Preds(ids, adj, order'[i]) ensures u in order'[..i] {
      if i < |order| {
        assert order'[..i] == order[..i];
      } else {
        assert order'[..i] == order;
        assert u !in Waiting(ids, adj, order, current);
      }
    }
    assert current !in Waiting(ids, adj, order, current);
    forall v | v in adj[current] ensures v !in order' {
      assert current in Preds(ids, adj, v);
      assert forall i :: 0 <= i < |order| ==> current !in order[..i];
    }
  }

  lemma {:induction false} OrderFits(ids: set<string>, order: seq<string>)
    requires Distinct(order) && forall i :: 0 <= i < |order| ==> order[i] in ids
    ensures |order| <= |ids|
    ensures |order| == |ids| ==> forall v :: v in ids ==> v in order
  {
    if order != [] {
      var n := |order| - 1;
      var rest := order[..n];
      OrderFits(ids - {order[n]}, rest);
      if |order| == |ids| {
        forall v | v in ids ensures v in order {
          if v != order[n] { assert v in rest; }
        }
      }
    }
  }

  // ---------------------------------------------------------------- stuck means cyclic

  /** From any waiting node one can walk back through waiting nodes for as long as one likes. */
  lemma {:induction false} WalkBack(
    ids: set<string>, adj: Adjacency, order: seq<string>, v: string, n: nat) returns (walk: seq<string>)
    requires Closed(ids, adj) && v in ids && v !in order
    requires forall w :: w in ids && w !in order ==> Waiting(ids, adj, order, w) != {}
    ensures |walk| == n + 1 && walk[n] == v
    ensures forall i :: 0 <= i <= n ==> walk[i] in ids
    ensures forall i :: 0 <= i < n ==> walk[i + 1] in adj[walk[i]]
    decreases n
  {
    if n == 0 {
      walk := [v];
    } else {
      var u :| u in Waiting(ids, adj, order, v);
      var front := WalkBack(ids, adj, order, u, n - 1);
      walk := front + [v];
    }
  }

  lemma {:induction false} Pigeonhole(ids: set<string>, walk: seq<string>) returns (i: nat, j: nat)
    requires |walk| > |ids| && forall k :: 0 <= k < |walk| ==> walk[k] in ids
    ensures i < j < |walk| && walk[i] == walk[j]
  {
    var n := |walk| - 1;
    if k :| 0 <= k < n && walk[k] == walk[n] {
      i, j := k, n;
    } else {
      i, j := Pigeonhole(ids - {walk[n]}, walk[..n]);
    }
  }

  lemma StuckIsCyclic(ids: set<string>, adj: Adjacency, edges: seq<Edge>, order: seq<string>, v: string)
    requires Closed(ids, adj) && AdjacencyOf(ids, adj, edges) && v in ids && v !in order
    requires forall w :: w in ids && w !in order ==> Waiting(ids, adj, order, w) != {}
    ensures HasCycle(edges)
  {
    var walk := WalkBack(ids, adj, order, v, |ids|);
    var i, j := Pigeonhole(ids, walk);
    var cycle := walk[i..j + 1];
    forall k | 0 <= k < |cycle| - 1 ensures Connected(edges, cycle[k], cycle[k + 1]) {
      assert walk[i + k + 1] in adj[walk[i + k]];
    }
    assert IsCycle(edges, cycle);
  }

  /** adj lists, for every node, exactly the targets of its edges. */
  ghost predicate AdjacencyOf(ids: set<string>, adj: Adjacency, edges: seq<Edge>)
    requires Closed(ids, adj)
  {
    && (forall u, v :: u in ids ==> (v in adj[u] <==> Connected(edges, u, v)))
    && (forall e :: e in edges ==> e.from in ids && e.to in ids)
  }

  lemma ForwardIsTopological(
    nodes: seq<Node>, ids: set<string>, adj: Adjacency, edges: seq<Edge>, order: seq<string>)
    requires ids == Ids(nodes) && Closed(ids, adj) && AdjacencyOf(ids, adj, edges)
    requires Forward(ids, adj, order) && forall v :: v in ids ==> v in order
    ensures IsTopological(nodes, edges, order)
  {
    forall i, j | 0 <= i < |order| && 0 <= j < |order| && Connected(edges, order[i], order[j]) ensures i < j {
      assert order[i] in Preds(ids, adj, order[j]);
      var k :| 0 <= k < j && order[k] == order[i];
    }
  }

  /** A topological order excludes every cycle. */
  lemma TopologicalIsAcyclic(nodes: seq<Node>, edges: seq<Edge>, order: seq<string>)
    requires IsTopological(nodes, edges, order)
    requires forall e :: e in edges ==> e.from in Ids(nodes) && e.to in Ids(nodes)
    ensures !HasCycle(edges)
  {
    forall walk | IsCycle(edges, walk) ensures false {
      assert Connected(edges, walk[0], walk[1]);
      var a :| 0 <= a < |order| && order[a] == walk[0];
      var b := Along(nodes, edges, order, walk, a, |walk| - 1);
    }
  }

  lemma {:induction false} Along(
    nodes: seq<Node>, edges: seq<Edge>, order: seq<string>, walk: seq<string>, a: nat, k: nat) returns (b: nat)
    requires IsTopological(nodes, edges, order) && k < |walk|
    requires forall e :: e in edges ==> e.from in Ids(nodes) && e.to in Ids(nodes)
    requires forall i :: 0 <= i < |walk| - 1 ==> Connected(edges, walk[i], walk[i + 1])
    requires a < |order| && order[a] == walk[0]
    ensures b < |order| && order[b] == walk[k] && a + k <= b
  {
    if k == 0 {
      b := a;
    } else {
      var c := Along(nodes, edges, order, walk, a, k - 1);
      assert Connected(edges, walk[k - 1], walk[k - 1 + 1]);
      b :| 0 <= b < |order| && order[b] == walk[k];
    }
  }

  // ---------------------------------------------------------------- the validator

  /** editor_api.py:238-264 */
  method CollectNodes(nodes: seq<Node>) returns (error: Verdict, ids: set<string>, adj: Adjacency)
    ensures error.Valid? <==> NodesOk(nodes)
    ensures error.Valid? ==> ids == Ids(nodes) && adj == map id | id in ids :: {}
    ensures error.Invalid? ==> error.error in {BadNode, DuplicateNode}
  {
    ids, adj := {}, map[];
    for index := 0 to |nodes|
      invariant NodesOk(nodes[..index])
      invariant ids == Ids(nodes[..index]) && adj == map id | id in ids :: {}
    {
      var node := nodes[index];
      assert nodes[..index + 1] == nodes[..index] + [node];
      assert forall k :: 0 <= k < index ==> nodes[..index][k] == nodes[k];
      if !node.idOk { return Invalid(BadNode), ids, adj; }
      if node.id in ids {
        var k :| 0 <= k < index && nodes[k].id == node.id;
        return Invalid(DuplicateNode), ids, adj;
      }
      if !node.fieldsOk { return Invalid(BadNode), ids, adj; }
      ids := ids + {node.id};
      adj := adj[node.id := {}];
      assert Ids(nodes[..index + 1]) == ids;
    }
    assert nodes[..|nodes|] == nodes;
    error := Valid;
  }

  /** What the three sets of the edge loop remember. */
  ghost predicate Remembers(
    edges: seq<Edge>, edgeIds: set<string>, incoming: set<(string, string)>, pairs: set<(string, string, string, string)>)
  {
    && (forall x :: x in edgeIds <==> exists e :: e in edges && e.id == x)
    && (forall x :: x in incoming <==> exists e :: e in edges && (e.to, e.toPort) == x)
    && (forall x :: x in pairs <==> exists e :: e in edges && (e.from, e.fromPort, e.to, e.toPort) == x)
  }

  lemma RememberMore(
    edges: seq<Edge>, edge: Edge,
    edgeIds: set<string>, incoming: set<(string, string)>, pairs: set<(string, string, string, string)>)
    requires Remembers(edges, edgeIds, incoming, pairs)
    ensures Remembers(edges + [edge], edgeIds + {edge.id}, incoming + {(edge.to, edge.toPort)},
                      pairs + {(edge.from, edge.fromPort, edge.to, edge.toPort)})
  {
  }

  /** The checks of one edge against the ones before it. */
  ghost predicate EdgeFits(ids: set<string>, before: seq<Edge>, edge: Edge)
  {
    && edge.tokensOk && edge.from in ids && edge.to in ids && edge.from != edge.to
    && (forall e :: e in before ==> e.id != edge.id && (e.to, e.toPort) != (edge.to, edge.toPort))
  }

  lemma EdgesSnoc(nodes: seq<Node>, before: seq<Edge>, edge: Edge)
    requires EdgesOk(nodes, before)
    ensures EdgesOk(nodes, before + [edge]) <==> EdgeFits(Ids(nodes), before, edge)
  {
    var all := before + [edge];
    if EdgesOk(nodes, all) {
      assert all[|before|] == edge;
      forall e | e in before ensures e.id != edge.id && (e.to, e.toPort) != (edge.to, edge.toPort) {
        var k :| 0 <= k < |before| && before[k] == e;
        assert all[k] == e;
      }
    }
    if EdgeFits(Ids(nodes), before, edge) {
      forall i, j | 0 <= i < j < |all|
        ensures all[i].id != all[j].id && (all[i].to, all[i].toPort) != (all[j].to, all[j].toPort)
      {
        if j == |before| { assert before[i] in before; }
      }
    }
  }

  lemma EdgesPrefix(nodes: seq<Node>, edges: seq<Edge>, n: nat)
    requires n <= |edges| && EdgesOk(nodes, edges)
    ensures EdgesOk(nodes, edges[..n])
  {
  }

  /** editor_api.py:270-288: the first check that one edge fails, if any. */
  method CheckEdge(
    ids: set<string>, ghost before: seq<Edge>, edge: Edge,
    edgeIds: set<string>, incoming: set<(string, string)>, pairs: set<(string, string, string, string)>)
    returns (error: Verdict)
    requires Remembers(before, edgeIds, incoming, pairs)
    ensures error.Valid? <==> EdgeFits(ids, before, edge)
    ensures error.Invalid? ==> error.error in {BadEdge, DuplicateEdge, MissingNode, SelfLoop, InputTaken}
  {
    if !edge.tokensOk { return Invalid(BadEdge); }
    if edge.id in edgeIds { return Invalid(DuplicateEdge); }
    if edge.from !in ids || edge.to !in ids { return Invalid(MissingNode); }
    if edge.from == edge.to { return Invalid(SelfLoop); }
    if (edge.to, edge.toPort) in incoming { return Invalid(InputTaken); }
    if (edge.from, edge.fromPort, edge.to, edge.toPort) in pairs {
      assert false;   // a repeated connection repeats its input, which was reported above
      return Invalid(DuplicateConnection);
    }
    error := Valid;
  }

  /** editor_api.py:266-296 */
  method CollectEdges(nodes: seq<Node>, edges: seq<Edge>, ids: set<string>, adj0: Adjacency)
    returns (error: Verdict, adj: Adjacency)
    requires ids == Ids(nodes) && adj0 == map id | id in ids :: {}
    ensures error.Valid? <==> EdgesOk(nodes, edges)
    ensures error.Valid? ==> Closed(ids, adj) && AdjacencyOf(ids, adj, edges)
    ensures error.Invalid? ==> error.error in {BadEdge, DuplicateEdge, MissingNode, SelfLoop, InputTaken}
  {
    NoEdgesYet(nodes, adj0);
    hide EdgesOk;
    hide AdjacencyOf;
    hide Remembers;
    adj := adj0;
    var edgeIds: set<string> := {};
    var incoming: set<(string, string)> := {};
    var pairs: set<(string, string, string, string)> := {};
    for index := 0 to |edges|
      invariant EdgesOk(nodes, edges[..index])
      invariant Closed(ids, adj) && AdjacencyOf(ids, adj, edges[..index])
      invariant Remembers(edges[..index], edgeIds, incoming, pairs)
    {
      var edge := edges[index];
      ghost var before := edges[..index];
      assert edges[..index + 1] == before + [edge];
      EdgesSnoc(nodes, before, edge);
      error := CheckEdge(ids, before, edge, edgeIds, incoming, pairs);
      if error.Invalid? {
        if EdgesOk(nodes, edges) { EdgesPrefix(nodes, edges, index + 1); }
        return;
      }
      RememberMore(before, edge, edgeIds, incoming, pairs);
      edgeIds := edgeIds + {edge.id};
      incoming := incoming + {(edge.to, edge.toPort)};
      pairs := pairs + {(edge.from, edge.fromPort, edge.to, edge.toPort)};
      AddEdge(ids, adj, adj[edge.from := adj[edge.from] + {edge.to}], before, edge);
      adj := adj[edge.from := adj[edge.from] + {edge.to}];
    }
    assert edges[..|edges|] == edges;
    error := Valid;
  }

  lemma NoEdgesYet(nodes: seq<Node>, adj: Adjacency)
    requires adj == map id | id in Ids(nodes) :: {}
    ensures EdgesOk(nodes, []) && Remembers([], {}, {}, {})
    ensures Closed(Ids(nodes), adj) && AdjacencyOf(Ids(nodes), adj, [])
  {
  }

  lemma AddEdge(ids: set<string>, before: Adjacency, adj: Adjacency, edges: seq<Edge>, edge: Edge)
    requires Closed(ids, before) && AdjacencyOf(ids, before, edges) && edge.from in ids && edge.to in ids
    requires adj == before[edge.from := before[edge.from] + {edge.to}]
    ensures Closed(ids, adj) && AdjacencyOf(ids, adj, edges + [edge])
  {
  }

  /** editor_api.py:298-312: the cycle check on its own. */
  method CheckAcyclic(nodes: seq<Node>, edges: seq<Edge>, ids: set<string>, adj: Adjacency)
    returns (acyclic: bool, ghost order: seq<string>)
    requires ids == Ids(nodes) && Closed(ids, adj) && AdjacencyOf(ids, adj, edges)
    ensures acyclic <==> !HasCycle(edges)
    ensures acyclic ==> IsTopological(nodes, edges, order)
  {
    var visited: nat;
    visited, order := Kahn(ids, adj);
    OrderFits(ids, order);
    acyclic := visited == |ids|;
    if acyclic {
      ForwardIsTopological(nodes, ids, adj, edges, order);
      TopologicalIsAcyclic(nodes, edges, order);
    } else {
      if forall v :: v in ids ==> v in order { MissedOne(ids, order); }
      ghost var v :| v in ids && v !in order;
      StuckIsCyclic(ids, adj, edges, order, v);
    }
  }

  /** The validator below the root of the document. */
  method Validate(nodes: seq<Node>, edges: seq<Edge>) returns (verdict: Verdict, ghost order: seq<string>)
    ensures verdict.Valid? <==> WellFormed(nodes, edges) && !HasCycle(edges)
    ensures verdict == Invalid(Cyclic) <==> WellFormed(nodes, edges) && HasCycle(edges)
    ensures verdict.Valid? ==> IsTopological(nodes, edges, order)
    ensures verdict != Invalid(DuplicateConnection)
  {
    order := [];
    if |nodes| > 500 { return Invalid(TooManyNodes), order; }
    if |edges| > 2000 { return Invalid(TooManyEdges), order; }
    var error, ids, adj := CollectNodes(nodes);
    if error.Invalid? { return error, order; }
    error, adj := CollectEdges(nodes, edges, ids, adj);
    if error.Invalid? { return error, order; }
    var acyclic: bool;
    acyclic, order := CheckAcyclic(nodes, edges, ids, adj);
    verdict := if acyclic then Valid else Invalid(Cyclic);
  }

  /** If every node was visited, as many were visited as there are. */
  lemma {:induction false} MissedOne(ids: set<string>, order: seq<string>)
    requires forall v :: v in ids ==> v in order
    ensures |ids| <= |order|
  {
    if order != [] {
      var n := |order| - 1;
      forall v | v in ids - {order[n]} ensures v in order[..n] { }
      MissedOne(ids - {order[n]}, order[..n]);
    } else {
      assert ids == {};
    }
  }
}
