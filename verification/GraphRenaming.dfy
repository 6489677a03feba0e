/** Searching a renamed graph finds the renamed hits, in the same order with the same weights. */
module GraphRenaming {
  import opened KnowledgeGraph

  ghost predicate Injective(f: map<Id, Id>) {
    forall a, b | a in f && b in f && f[a] == f[b] :: a == b
  }

  function Rename(f: map<Id, Id>, id: Id): Id {
    if id in f then f[id] else id
  }

  function RenameEdges(edges: seq<Edge>, f: map<Id, Id>): seq<Edge> {
    seq(|edges|, i requires 0 <= i < |edges| => Edge(Rename(f, edges[i].to), edges[i].weight))
  }

  function RenameHits(hits: seq<Hit>, f: map<Id, Id>): seq<Hit> {
    seq(|hits|, i requires 0 <= i < |hits| => Hit(Rename(f, hits[i].id), hits[i].depth, hits[i].weight))
  }

  ghost predicate HitsIn(hits: seq<Hit>, f: map<Id, Id>) {
    forall i | 0 <= i < |hits| :: hits[i].id in f
  }

  ghost predicate EdgesIn(edges: seq<Edge>, f: map<Id, Id>) {
    forall i | 0 <= i < |edges| :: edges[i].to in f
  }

  /** `image` is `adj` with every node of the domain of `f` renamed, edge order kept. */
  ghost predicate Renames(adj: Adjacency, image: Adjacency, f: map<Id, Id>) {
    && Injective(f)
    && (forall id | id in adj :: id in f)
    && (forall id | id in f :: EdgesIn(Next(adj, id), f) && Next(image, f[id]) == RenameEdges(Next(adj, id), f))
  }

  lemma VisitRenames(hits: seq<Hit>, e: Edge, depth: nat, f: map<Id, Id>)
    requires Injective(f) && e.to in f && HitsIn(hits, f)
    ensures HitsIn(Visit(hits, e, depth), f)
    ensures Visit(RenameHits(hits, f), Edge(f[e.to], e.weight), depth) == RenameHits(Visit(hits, e, depth), f)
  {
    var image := RenameHits(hits, f);
    if Seen(hits, e.to) {
      var i :| 0 <= i < |hits| && hits[i].id == e.to;
      assert image[i].id == f[e.to];
    }
  }

  lemma {:induction false} ExpandRenames(edges: seq<Edge>, depth: nat, hits: seq<Hit>, f: map<Id, Id>)
    requires Injective(f) && HitsIn(hits, f) && EdgesIn(edges, f)
    ensures HitsIn(Expand(edges, depth, hits), f)
    ensures Expand(RenameEdges(edges, f), depth, RenameHits(hits, f)) == RenameHits(Expand(edges, depth, hits), f)
  {
    if edges != [] {
      VisitRenames(hits, edges[0], depth, f);
      assert RenameEdges(edges, f)[1..] == RenameEdges(edges[1..], f);
      assert EdgesIn(edges[1..], f);
      hide Injective, Visit, HitsIn, RenameHits;
      ExpandRenames(edges[1..], depth, Visit(hits, edges[0], depth), f);
    }
  }

  lemma TargetIsRenamed(adj: Adjacency, image: Adjacency, f: map<Id, Id>, id: Id, k: nat)
    requires Renames(adj, image, f) && id in adj && k < |adj[id]|
    ensures adj[id][k].to in f && f[adj[id][k].to] in Targets(image)
  {
    assert Next(image, f[id]) == RenameEdges(Next(adj, id), f);
    assert image[f[id]][k].to == f[adj[id][k].to];
  }

  lemma RenamedIsBounded(adj: Adjacency, image: Adjacency, f: map<Id, Id>, hits: seq<Hit>)
    requires Renames(adj, image, f) && Bounded(adj, hits)
    ensures HitsIn(hits, f) && Bounded(image, RenameHits(hits, f)) && |RenameHits(hits, f)| == |hits|
  {
    forall i | 0 <= i < |hits| ensures hits[i].id in f && f[hits[i].id] in Targets(image) {
      assert hits[i].id in Targets(adj);
      var id, k :| id in adj && 0 <= k < |adj[id]| && adj[id][k].to == hits[i].id;
      TargetIsRenamed(adj, image, f, id, k);
    }
    var renamed := RenameHits(hits, f);
    forall i, k | 0 <= i < k < |renamed| ensures renamed[i].id != renamed[k].id {
      assert hits[i].id != hits[k].id;
    }
  }

  lemma StepRenames(adj: Adjacency, image: Adjacency, f: map<Id, Id>, start: Id, hits: seq<Hit>, head: nat)
    requires Renames(adj, image, f) && start in f && HitsIn(hits, f) && head <= |hits|
    ensures var node, twin := Queued(start, hits, head), Queued(f[start], RenameHits(hits, f), head);
            && twin.depth == node.depth
            && Expand(Next(image, twin.id), node.depth, RenameHits(hits, f)) ==
               RenameHits(Expand(Next(adj, node.id), node.depth, hits), f)
  {
    var node := Queued(start, hits, head);
    assert Queued(f[start], RenameHits(hits, f), head).id == f[node.id];
    hide Injective;
    ExpandRenames(Next(adj, node.id), node.depth, hits, f);
  }

  /** The rest of the search on the renamed graph is the rest of the search, renamed. */
  ghost predicate Agree(adj: Adjacency, image: Adjacency, f: map<Id, Id>, start: Id, maxDepth: int, hits: seq<Hit>, head: nat)
    requires Bounded(adj, hits) && Bounded(image, RenameHits(hits, f))
    requires head <= |hits| + 1 && head <= |RenameHits(hits, f)| + 1
  {
    Search(image, Rename(f, start), maxDepth, RenameHits(hits, f), head) ==
    RenameHits(Search(adj, start, maxDepth, hits, head), f)
  }

  lemma EndAgrees(adj: Adjacency, image: Adjacency, f: map<Id, Id>, start: Id, maxDepth: int, hits: seq<Hit>)
    requires Bounded(adj, hits) && Bounded(image, RenameHits(hits, f))
    ensures |RenameHits(hits, f)| == |hits| && Agree(adj, image, f, start, maxDepth, hits, |hits| + 1)
  {
  }

  lemma SkipAgrees(adj: Adjacency, image: Adjacency, f: map<Id, Id>, start: Id, maxDepth: int, hits: seq<Hit>, head: nat)
    requires Renames(adj, image, f) && start in f && Bounded(adj, hits) && head <= |hits|
    requires Bounded(image, RenameHits(hits, f)) && HitsIn(hits, f)
    requires Queued(start, hits, head).depth >= maxDepth && Agree(adj, image, f, start, maxDepth, hits, head + 1)
    ensures Agree(adj, image, f, start, maxDepth, hits, head)
  {
    hide Bounded, Search, Renames, Expand, Next, HitsIn, RenameHits, Queued;
    RenameKeepsLength(hits, f);
    StepRenames(adj, image, f, start, hits, head);
    SearchStep(adj, start, maxDepth, hits, head);
    SearchStep(image, f[start], maxDepth, RenameHits(hits, f), head);
  }

  lemma RenameKeepsLength(hits: seq<Hit>, f: map<Id, Id>)
    ensures |RenameHits(hits, f)| == |hits|
  {
  }

  lemma ExpandAgrees(adj: Adjacency, image: Adjacency, f: map<Id, Id>, start: Id, maxDepth: int, hits: seq<Hit>, head: nat, more: seq<Hit>)
    requires Renames(adj, image, f) && start in f && Bounded(adj, hits) && head <= |hits| <= |more|
    requires Bounded(image, RenameHits(hits, f)) && HitsIn(hits, f)
    requires Bounded(adj, more) && Bounded(image, RenameHits(more, f))
    requires var node := Queued(start, hits, head);
             node.depth < maxDepth && more == Expand(Next(adj, node.id), node.depth, hits)
    requires Agree(adj, image, f, start, maxDepth, more, head + 1)
    ensures Agree(adj, image, f, start, maxDepth, hits, head)
  {
    SearchStep(adj, start, maxDepth, hits, head);
    SearchStep(image, f[start], maxDepth, RenameHits(hits, f), head);
    StepRenames(adj, image, f, start, hits, head);
    hide Bounded, Search, Renames, Expand, Next;
  }

  lemma {:induction false} SearchRenames(adj: Adjacency, image: Adjacency, f: map<Id, Id>, start: Id, maxDepth: int, hits: seq<Hit>, head: nat)
    requires Renames(adj, image, f) && start in f && Bounded(adj, hits) && head <= |hits| + 1
    ensures |RenameHits(hits, f)| == |hits| && Bounded(image, RenameHits(hits, f))
    ensures Agree(adj, image, f, start, maxDepth, hits, head)
    decreases |Targets(adj)| + 1 - head
  {
    hide *;
    RenamedIsBounded(adj, image, f, hits);
    SearchStep(adj, start, maxDepth, hits, head);
    if head > |hits| {
      EndAgrees(adj, image, f, start, maxDepth, hits);
    } else if Queued(start, hits, head).depth >= maxDepth {
      SearchRenames(adj, image, f, start, maxDepth, hits, head + 1);
      SkipAgrees(adj, image, f, start, maxDepth, hits, head);
    } else {
      var more := Expand(Next(adj, Queued(start, hits, head).id), Queued(start, hits, head).depth, hits);
      SearchRenames(adj, image, f, start, maxDepth, more, head + 1);
      ExpandAgrees(adj, image, f, start, maxDepth, hits, head, more);
    }
  }

  /** Renaming invariance of both traversals. */
  lemma ChainRenames(adj: Adjacency, image: Adjacency, f: map<Id, Id>, start: Id, maxDepth: int)
    requires Renames(adj, image, f) && start in f
    ensures HitsIn(Chain(adj, start, maxDepth), f)
    ensures Chain(image, f[start], maxDepth) == RenameHits(Chain(adj, start, maxDepth), f)
  {
    SearchRenames(adj, image, f, start, maxDepth, [], 0);
    RenamedIsBounded(adj, image, f, Chain(adj, start, maxDepth));
    assert RenameHits([], f) == [];
  }
}
