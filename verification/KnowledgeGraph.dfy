/**
 The traversals of backend/app/kb/graph.py: a bounded breadth-first search over an adjacency
 dictionary, run over prerequisite lists for ancestors and over successor lists for descendants.
 */
module KnowledgeGraph {
  type Id = int

  datatype Edge = Edge(to: Id, weight: real)
  type Adjacency = map<Id, seq<Edge>>

  /** A node reached by the search: its depth and the weight of the edge that reached it first. */
  datatype Hit = Hit(id: Id, depth: nat, weight: real)

  function Next(adj: Adjacency, id: Id): seq<Edge> {
    if id in adj then adj[id] else []
  }

  predicate Seen(hits: seq<Hit>, id: Id) {
    exists i :: 0 <= i < |hits| && hits[i].id == id
  }

  function Visit(hits: seq<Hit>, e: Edge, depth: nat): seq<Hit> {
    if Seen(hits, e.to) then hits else hits + [Hit(e.to, depth + 1, e.weight)]
  }

  /** Visits the edges of one node in order, appending every node not seen before. */
  function Expand(edges: seq<Edge>, depth: nat, hits: seq<Hit>): seq<Hit> {
    if edges == [] then hits else Expand(edges[1..], depth, Visit(hits, edges[0], depth))
  }

  /** Every node is queued exactly when it is first seen, so position `i` of the queue is the
      start node for `i == 0` and hit `i - 1` afterwards. */
  function Queued(start: Id, hits: seq<Hit>, i: nat): Hit
    requires i <= |hits|
  {
    if i == 0 then Hit(start, 0, 0.0) else hits[i - 1]
  }

  function Targets(adj: Adjacency): set<Id> {
    set id, i | id in adj && 0 <= i < |adj[id]| :: adj[id][i].to
  }

  ghost predicate Distinct(hits: seq<Hit>) {
    forall i, k | 0 <= i < k < |hits| :: hits[i].id != hits[k].id
  }

  ghost predicate Bounded(adj: Adjacency, hits: seq<Hit>) {
    Distinct(hits) && forall i | 0 <= i < |hits| :: hits[i].id in Targets(adj)
  }

  /** Distinct hits are no more than there are edge targets, which bounds the search. */
  lemma {:induction false} BoundedIsShort(hits: seq<Hit>, ids: set<Id>)
    requires Distinct(hits) && forall i | 0 <= i < |hits| :: hits[i].id in ids
    ensures |hits| <= |ids|
  {
    if hits != [] {
      var last := hits[|hits| - 1].id;
      BoundedIsShort(hits[..|hits| - 1], ids - {last});
    }
  }

  lemma {:induction false} ExpandIsBounded(adj: Adjacency, edges: seq<Edge>, depth: nat, hits: seq<Hit>)
    requires Bounded(adj, hits) && forall i | 0 <= i < |edges| :: edges[i].to in Targets(adj)
    ensures Bounded(adj, Expand(edges, depth, hits)) && hits <= Expand(edges, depth, hits)
  {
    if edges != [] { ExpandIsBounded(adj, edges[1..], depth, Visit(hits, edges[0], depth)); }
  }

  /** The rest of the search once `head` queue entries have been taken. */
  function Search(adj: Adjacency, start: Id, maxDepth: int, hits: seq<Hit>, head: nat): (r: seq<Hit>)
    requires Bounded(adj, hits) && head <= |hits| + 1
    ensures Bounded(adj, r) && hits <= r
    decreases |Targets(adj)| + 1 - head
  {
    BoundedIsShort(hits, Targets(adj));
    if head > |hits| then hits else
      var node := Queued(start, hits, head);
      if node.depth >= maxDepth then Search(adj, start, maxDepth, hits, head + 1) else
        ExpandIsBounded(adj, Next(adj, node.id), node.depth, hits);
        Search(adj, start, maxDepth, Expand(Next(adj, node.id), node.depth, hits), head + 1)
  }

  /** One iteration of the search, and its end once the queue is used up. */
  lemma SearchStep(adj: Adjacency, start: Id, maxDepth: int, hits: seq<Hit>, head: nat)
    requires Bounded(adj, hits) && head <= |hits| + 1
    ensures |hits| <= |Targets(adj)|
    ensures head == |hits| + 1 ==> Search(adj, start, maxDepth, hits, head) == hits
    ensures head <= |hits| ==>
              var node := Queued(start, hits, head);
              if node.depth >= maxDepth then Search(adj, start, maxDepth, hits, head) == Search(adj, start, maxDepth, hits, head + 1)
              else
                var more := Expand(Next(adj, node.id), node.depth, hits);
                && Bounded(adj, more) && hits <= more
                && Search(adj, start, maxDepth, hits, head) == Search(adj, start, maxDepth, more, head + 1)
  {
    BoundedIsShort(hits, Targets(adj));
    if head <= |hits| {
      var node := Queued(start, hits, head);
      ExpandIsBounded(adj, Next(adj, node.id), node.depth, hits);
      hide Bounded, Expand, Targets;
    }
  }

  /** `prerequisite_chain` over prerequisite lists, `descendants` over successor lists. */
  function Chain(adj: Adjacency, start: Id, maxDepth: int): seq<Hit> {
    Search(adj, start, maxDepth, [], 0)
  }

  // ----- What the search finds ----------------------------------------------------------

  predicate HasEdge(edges: seq<Edge>, to: Id) {
    exists i :: 0 <= i < |edges| && edges[i].to == to
  }

  predicate Arrow(adj: Adjacency, a: Id, b: Id) {
    HasEdge(Next(adj, a), b)
  }

  /** There is a walk of exactly `n` edges from `a` to `b`. */
  ghost predicate Walk(adj: Adjacency, a: Id, b: Id, n: nat)
    decreases n
  {
    if n == 0 then a == b else exists m :: Walk(adj, a, m, n - 1) && Arrow(adj, m, b)
  }

  /** `n` is the shortest positive distance from `a` to `b`; on a cycle `b` may be `a` itself. */
  ghost predicate Shortest(adj: Adjacency, a: Id, b: Id, n: nat) {
    1 <= n && Walk(adj, a, b, n) && forall k: nat | 1 <= k < n :: !Walk(adj, a, b, k)
  }

  predicate SortedByDepth(hits: seq<Hit>) {
    forall i, k | 0 <= i < k < |hits| :: hits[i].depth <= hits[k].depth
  }

  /** A hit is real: a walk of its depth, ending with an edge of its weight. */
  ghost predicate Sound(adj: Adjacency, start: Id, maxDepth: int, h: Hit) {
    && 1 <= h.depth <= maxDepth
    && exists m :: Walk(adj, start, m, h.depth - 1) && Edge(h.id, h.weight) in Next(adj, m)
  }

  /** Node `id` was seen within `depth` steps. */
  ghost predicate Within(hits: seq<Hit>, id: Id, depth: int) {
    exists i :: 0 <= i < |hits| && hits[i].id == id && hits[i].depth <= depth
  }

  ghost predicate Expanded(adj: Adjacency, hits: seq<Hit>, node: Hit) {
    forall i | 0 <= i < |Next(adj, node.id)| :: Within(hits, Next(adj, node.id)[i].to, node.depth + 1)
  }

  ghost predicate SearchInv(adj: Adjacency, start: Id, maxDepth: int, hits: seq<Hit>, head: nat) {
    && Bounded(adj, hits) && SortedByDepth(hits) && head <= |hits| + 1
    && (forall i | 0 <= i < |hits| :: Sound(adj, start, maxDepth, hits[i]))
    && (forall i | 0 <= i < head && Queued(start, hits, i).depth < maxDepth :: Expanded(adj, hits, Queued(start, hits, i)))
    && (head <= |hits| ==> forall i | 0 <= i < |hits| :: hits[i].depth <= Queued(start, hits, head).depth + 1)
  }
}
