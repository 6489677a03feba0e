/** The bounded search is exact on every graph, cycles included, and the two directions are dual. */
module GraphTheorems {
  import opened KnowledgeGraph

  ghost predicate LevelOk(adj: Adjacency, start: Id, maxDepth: int, hits: seq<Hit>, limit: int) {
    && SortedByDepth(hits)
    && (forall i | 0 <= i < |hits| :: hits[i].depth <= limit && Sound(adj, start, maxDepth, hits[i]))
  }

  lemma VisitKeepsLevel(adj: Adjacency, start: Id, maxDepth: int, node: Hit, e: Edge, hits: seq<Hit>)
    requires LevelOk(adj, start, maxDepth, hits, node.depth + 1)
    requires Walk(adj, start, node.id, node.depth) && node.depth < maxDepth && e in Next(adj, node.id)
    ensures LevelOk(adj, start, maxDepth, Visit(hits, e, node.depth), node.depth + 1)
    ensures hits <= Visit(hits, e, node.depth) && Within(Visit(hits, e, node.depth), e.to, node.depth + 1)
  {
    var h := Hit(e.to, node.depth + 1, e.weight);
    assert Sound(adj, start, maxDepth, h) by { assert Edge(h.id, h.weight) == e; }
    hide Sound, Walk;
    if !Seen(hits, e.to) { assert Visit(hits, e, node.depth)[|hits|] == h; }
  }

  lemma {:induction false} ExpandKeepsLevel(adj: Adjacency, start: Id, maxDepth: int, node: Hit, edges: seq<Edge>, hits: seq<Hit>)
    requires LevelOk(adj, start, maxDepth, hits, node.depth + 1)
    requires Walk(adj, start, node.id, node.depth) && node.depth < maxDepth
    requires forall i | 0 <= i < |edges| :: edges[i] in Next(adj, node.id)
    ensures var r := Expand(edges, node.depth, hits);
            && hits <= r && LevelOk(adj, start, maxDepth, r, node.depth + 1)
            && (forall i | 0 <= i < |edges| :: Within(r, edges[i].to, node.depth + 1))
  {
    if edges != [] {
      hide LevelOk, Walk, Within, Visit;
      var next := Visit(hits, edges[0], node.depth);
      VisitKeepsLevel(adj, start, maxDepth, node, edges[0], hits);
      ExpandKeepsLevel(adj, start, maxDepth, node, edges[1..], next);
      var r := Expand(edges, node.depth, hits);
      WithinLonger(next, r, edges[0].to, node.depth + 1);
      forall i | 0 <= i < |edges| ensures Within(r, edges[i].to, node.depth + 1) {
        if i > 0 { assert edges[i] == edges[1..][i - 1]; }
      }
    }
  }

  lemma WithinLonger(hits: seq<Hit>, more: seq<Hit>, id: Id, depth: int)
    requires hits <= more && Within(hits, id, depth)
    ensures Within(more, id, depth)
  {
    var i :| 0 <= i < |hits| && hits[i].id == id && hits[i].depth <= depth;
    assert more[i] == hits[i];
  }

  lemma SoundIsWalk(adj: Adjacency, start: Id, maxDepth: int, h: Hit)
    requires Sound(adj, start, maxDepth, h)
    ensures Walk(adj, start, h.id, h.depth)
  {
    var m :| Walk(adj, start, m, h.depth - 1) && Edge(h.id, h.weight) in Next(adj, m);
    var i :| 0 <= i < |Next(adj, m)| && Next(adj, m)[i] == Edge(h.id, h.weight);
    assert Arrow(adj, m, h.id);
  }

  lemma QueuedIsWalk(adj: Adjacency, start: Id, maxDepth: int, hits: seq<Hit>, head: nat)
    requires SearchInv(adj, start, maxDepth, hits, head) && head <= |hits|
    ensures Walk(adj, start, Queued(start, hits, head).id, Queued(start, hits, head).depth)
  {
    if head > 0 { SoundIsWalk(adj, start, maxDepth, hits[head - 1]); }
  }

  lemma StepKeepsInv(adj: Adjacency, start: Id, maxDepth: int, hits: seq<Hit>, head: nat, next: seq<Hit>)
    requires SearchInv(adj, start, maxDepth, hits, head) && head <= |hits|
    requires Bounded(adj, next) && hits <= next
    requires var node := Queued(start, hits, head);
             LevelOk(adj, start, maxDepth, next, node.depth + 1) &&
             (node.depth < maxDepth ==> Expanded(adj, next, node))
    ensures SearchInv(adj, start, maxDepth, next, head + 1)
  {
    hide Bounded, Sound;
    forall i | 0 <= i < head + 1 && Queued(start, next, i).depth < maxDepth
      ensures Expanded(adj, next, Queued(start, next, i))
    {
      var node := Queued(start, hits, i);
      assert Queued(start, next, i) == node;
      if i < head {
        forall k | 0 <= k < |Next(adj, node.id)| ensures Within(next, Next(adj, node.id)[k].to, node.depth + 1) {
          WithinLonger(hits, next, Next(adj, node.id)[k].to, node.depth + 1);
        }
      }
    }
  }

  lemma ExpandKeepsInv(adj: Adjacency, start: Id, maxDepth: int, hits: seq<Hit>, head: nat)
    requires SearchInv(adj, start, maxDepth, hits, head) && head <= |hits|
    requires Queued(start, hits, head).depth < maxDepth
    ensures var node := Queued(start, hits, head);
            SearchInv(adj, start, maxDepth, Expand(Next(adj, node.id), node.depth, hits), head + 1)
  {
    var node := Queued(start, hits, head);
    QueuedIsWalk(adj, start, maxDepth, hits, head);
    ExpandIsBounded(adj, Next(adj, node.id), node.depth, hits);
    hide Bounded, Walk, Sound, Within;
    ExpandKeepsLevel(adj, start, maxDepth, node, Next(adj, node.id), hits);
    StepKeepsInv(adj, start, maxDepth, hits, head, Expand(Next(adj, node.id), node.depth, hits));
  }

  lemma SkipKeepsInv(adj: Adjacency, start: Id, maxDepth: int, hits: seq<Hit>, head: nat)
    requires SearchInv(adj, start, maxDepth, hits, head) && head <= |hits|
    requires Queued(start, hits, head).depth >= maxDepth
    ensures SearchInv(adj, start, maxDepth, hits, head + 1)
  {
    StepKeepsInv(adj, start, maxDepth, hits, head, hits);
  }

  lemma InvIsBounded(adj: Adjacency, start: Id, maxDepth: int, hits: seq<Hit>, head: nat)
    requires SearchInv(adj, start, maxDepth, hits, head)
    ensures Bounded(adj, hits) && head <= |hits| + 1 && |hits| <= |Targets(adj)|
  {
    BoundedIsShort(hits, Targets(adj));
  }

  lemma {:induction false} SearchKeepsInv(adj: Adjacency, start: Id, maxDepth: int, hits: seq<Hit>, head: nat)
    requires SearchInv(adj, start, maxDepth, hits, head)
    ensures var r := Search(adj, start, maxDepth, hits, head); SearchInv(adj, start, maxDepth, r, |r| + 1)
    decreases |Targets(adj)| + 1 - head
  {
    hide SearchInv, Bounded, Expand, Targets;
    InvIsBounded(adj, start, maxDepth, hits, head);
    if head <= |hits| {
      var node := Queued(start, hits, head);
      if node.depth < maxDepth {
        ExpandKeepsInv(adj, start, maxDepth, hits, head);
        SearchKeepsInv(adj, start, maxDepth, Expand(Next(adj, node.id), node.depth, hits), head + 1);
      } else {
        SkipKeepsInv(adj, start, maxDepth, hits, head);
        SearchKeepsInv(adj, start, maxDepth, hits, head + 1);
      }
    }
  }

  lemma ChainInv(adj: Adjacency, start: Id, maxDepth: int)
    ensures var r := Chain(adj, start, maxDepth); SearchInv(adj, start, maxDepth, r, |r| + 1)
  {
    hide *;
    StartInv(adj, start, maxDepth);
    SearchKeepsInv(adj, start, maxDepth, [], 0);
    ChainIsSearch(adj, start, maxDepth);
  }

  lemma StartInv(adj: Adjacency, start: Id, maxDepth: int)
    ensures SearchInv(adj, start, maxDepth, [], 0) && Bounded(adj, [])
  {
  }

  lemma ChainIsSearch(adj: Adjacency, start: Id, maxDepth: int)
    requires Bounded(adj, [])
    ensures Chain(adj, start, maxDepth) == Search(adj, start, maxDepth, [], 0)
  {
    hide Search, Bounded;
  }

  lemma ArrowsAreFollowed(adj: Adjacency, start: Id, maxDepth: int, r: seq<Hit>, i: nat, x: Id)
    requires SearchInv(adj, start, maxDepth, r, |r| + 1) && i <= |r|
    requires Queued(start, r, i).depth < maxDepth && Arrow(adj, Queued(start, r, i).id, x)
    ensures Within(r, x, Queued(start, r, i).depth + 1)
  {
    var node := Queued(start, r, i);
    assert Expanded(adj, r, node);
    hide SearchInv, Within;
    var e :| 0 <= e < |Next(adj, node.id)| && Next(adj, node.id)[e].to == x;
  }

  /** Every walk of 1 to maxDepth edges leads to a hit no deeper than the walk is long. */
  lemma {:induction false} WalksAreFound(adj: Adjacency, start: Id, maxDepth: int, r: seq<Hit>, x: Id, n: nat)
    requires SearchInv(adj, start, maxDepth, r, |r| + 1) && 1 <= n <= maxDepth && Walk(adj, start, x, n)
    ensures Within(r, x, n)
    decreases n
  {
    hide SearchInv, Arrow;
    var m :| Walk(adj, start, m, n - 1) && Arrow(adj, m, x);
    var i: nat := 0;
    if n > 1 {
      WalksAreFound(adj, start, maxDepth, r, m, n - 1);
      var k :| 0 <= k < |r| && r[k].id == m && r[k].depth <= n - 1;
      i := k + 1;
    }
    ArrowsAreFollowed(adj, start, maxDepth, r, i, x);
  }

  /** The chain lists exactly the nodes within maxDepth steps, each once, at its shortest
      positive distance, in order of depth, with the weight of an edge that closes such a walk. */
  lemma ChainIsExact(adj: Adjacency, start: Id, maxDepth: int)
    ensures var r := Chain(adj, start, maxDepth);
            && Distinct(r) && SortedByDepth(r)
            && (forall x, d: nat :: (exists i :: 0 <= i < |r| && r[i].id == x && r[i].depth == d) <==>
                                    d <= maxDepth && Shortest(adj, start, x, d))
            && (forall i | 0 <= i < |r| :: Sound(adj, start, maxDepth, r[i]))
  {
    ChainInv(adj, start, maxDepth);
    var r := Chain(adj, start, maxDepth);
    forall x, d: nat
      ensures (exists i :: 0 <= i < |r| && r[i].id == x && r[i].depth == d) <==> d <= maxDepth && Shortest(adj, start, x, d)
    {
      if i :| 0 <= i < |r| && r[i].id == x && r[i].depth == d {
        HitIsShortest(adj, start, maxDepth, r, i);
      } else if d <= maxDepth && Shortest(adj, start, x, d) {
        WalksAreFound(adj, start, maxDepth, r, x, d);
        var i :| 0 <= i < |r| && r[i].id == x && r[i].depth <= d;
        HitIsShortest(adj, start, maxDepth, r, i);
        assert false;
      }
    }
  }

  lemma HitIsShortest(adj: Adjacency, start: Id, maxDepth: int, r: seq<Hit>, i: nat)
    requires SearchInv(adj, start, maxDepth, r, |r| + 1) && i < |r|
    ensures r[i].depth <= maxDepth && Shortest(adj, start, r[i].id, r[i].depth)
  {
    SoundIsWalk(adj, start, maxDepth, r[i]);
    forall k: nat | 1 <= k < r[i].depth ensures !Walk(adj, start, r[i].id, k) {
      if Walk(adj, start, r[i].id, k) { WalksAreFound(adj, start, maxDepth, r, r[i].id, k); }
    }
  }

  // ----- Duality ------------------------------------------------------------------------

  ghost predicate Opposite(down: Adjacency, up: Adjacency) {
    forall a, b :: Arrow(down, a, b) <==> Arrow(up, b, a)
  }

  lemma {:induction false} WalkPrepend(adj: Adjacency, a: Id, m: Id, b: Id, n: nat)
    requires Arrow(adj, a, m) && Walk(adj, m, b, n)
    ensures Walk(adj, a, b, n + 1)
    decreases n
  {
    if n == 0 {
      assert Walk(adj, a, a, 0) && Arrow(adj, a, b);
    } else {
      var p :| Walk(adj, m, p, n - 1) && Arrow(adj, p, b);
      WalkPrepend(adj, a, m, p, n - 1);
    }
  }

  lemma {:induction false} WalkReverses(down: Adjacency, up: Adjacency, a: Id, b: Id, n: nat)
    requires Opposite(down, up) && Walk(down, a, b, n)
    ensures Walk(up, b, a, n)
    decreases n
  {
    hide Arrow;
    if n > 0 {
      var m :| Walk(down, a, m, n - 1) && Arrow(down, m, b);
      WalkReverses(down, up, a, m, n - 1);
      assert Arrow(up, b, m);
      hide Walk, Opposite;
      WalkPrepend(up, b, m, a, n - 1);
    }
  }

  lemma ShortestReverses(down: Adjacency, up: Adjacency, a: Id, b: Id, n: nat)
    requires Opposite(down, up) && Shortest(down, a, b, n)
    ensures Shortest(up, b, a, n)
  {
    WalkReverses(down, up, a, b, n);
    forall k: nat | 1 <= k < n ensures !Walk(up, b, a, k) {
      if Walk(up, b, a, k) {
        assert Opposite(up, down);
        WalkReverses(up, down, b, a, k);
      }
    }
  }

  ghost predicate Lists(hits: seq<Hit>, id: Id, depth: nat) {
    exists i :: 0 <= i < |hits| && hits[i].id == id && hits[i].depth == depth
  }

  /** `a` is an ancestor of `k` at depth `d` exactly when `k` is a descendant of `a` at depth `d`. */
  lemma ChainsAreDual(prereq: Adjacency, succ: Adjacency, k: Id, a: Id, maxDepth: int, d: nat)
    requires Opposite(prereq, succ)
    ensures Lists(Chain(prereq, k, maxDepth), a, d) <==> Lists(Chain(succ, a, maxDepth), k, d)
  {
    ChainIsExact(prereq, k, maxDepth);
    ChainIsExact(succ, a, maxDepth);
    assert Opposite(succ, prereq);
    if Shortest(prereq, k, a, d) { ShortestReverses(prereq, succ, k, a, d); }
    if Shortest(succ, a, k, d) { ShortestReverses(succ, prereq, a, k, d); }
    hide Shortest, Chain;
    assert Lists(Chain(prereq, k, maxDepth), a, d) <==> d <= maxDepth && Shortest(prereq, k, a, d);
    assert Lists(Chain(succ, a, maxDepth), k, d) <==> d <= maxDepth && Shortest(succ, a, k, d);
  }
}
