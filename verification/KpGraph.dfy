/** The graph object of backend/app/kb/graph.py: dictionaries filled in loops, searched with a queue. */
module KpGraphs {
  import opened KnowledgeGraph
  import opened KnowledgeBase
  import GraphTheorems

  lemma NoEdges(to: Id)
    ensures !HasEdge([], to)
  {
  }

  /** A store's prerequisite and successor dictionaries are opposite, so chains and descendants
      of any knowledge graph are dual. */
  lemma AncestorsAndDescendantsAreDual(relations: seq<Relation>, ids: set<Id>, k: Id, a: Id, maxDepth: int, d: nat)
    ensures GraphTheorems.Lists(Chain(PrereqMap(relations, ids), k, maxDepth), a, d) <==>
            GraphTheorems.Lists(Chain(SuccMap(relations, ids), a, maxDepth), k, d)
  {
    var prereq, succ := PrereqMap(relations, ids), SuccMap(relations, ids);
    forall x, y ensures Arrow(prereq, x, y) <==> Arrow(succ, y, x) {
      EdgesAreLinks(relations, ids, x, y);
      EdgesAreLinks(relations, ids, y, x);
      hide HasEdge, EdgesInto, EdgesOutOf;
      assert !HasEdge([], y) && !HasEdge([], x) by { NoEdges(x); NoEdges(y); }
    }
    GraphTheorems.ChainsAreDual(prereq, succ, k, a, maxDepth, d);
  }

  class KpGraph {
    var ids: set<Id>
    var prereq: Adjacency
    var succ: Adjacency
    var confusable: map<Id, seq<Id>>

    constructor (points: seq<Point>, relations: seq<Relation>, version: nat)
      ensures ids == IdsOf(PointsOf(points, version))
      ensures prereq == PrereqMap(relations, ids) && succ == SuccMap(relations, ids)
      ensures confusable == PartnerMap(relations, ids)
    {
      ids, prereq, succ, confusable := {}, map[], map[], map[];
      new;
      for i := 0 to |points|
        invariant ids == IdsOf(PointsOf(points[..i], version))
        invariant prereq == succ == PrereqMap([], ids) && confusable == PartnerMap([], ids)
      {
        assert points[..i + 1][..i] == points[..i];
        AddedId(PointsOf(points[..i], version), points[i]);
        if points[i].version == version { AddPoint(points[i].id); }
      }
      assert points[..|points|] == points;
      assert succ == SuccMap([], ids);
      AddRelations(relations);
    }

    method AddPoint(id: Id)
      requires prereq == succ == PrereqMap([], ids) && confusable == PartnerMap([], ids)
      modifies this
      ensures ids == old(ids) + {id}
      ensures prereq == succ == PrereqMap([], ids) && confusable == PartnerMap([], ids)
    {
      ids := ids + {id};
      prereq, succ, confusable := prereq[id := []], succ[id := []], confusable[id := []];
    }

    method AddRelations(relations: seq<Relation>)
      requires prereq == PrereqMap([], ids) && succ == SuccMap([], ids) && confusable == PartnerMap([], ids)
      modifies this`prereq, this`succ, this`confusable
      ensures prereq == PrereqMap(relations, ids) && succ == SuccMap(relations, ids)
      ensures confusable == PartnerMap(relations, ids)
    {
      hide IntoStep, OutOfStep, PartnersStep, EdgesInto, EdgesOutOf, PartnersOf;
      for i := 0 to |relations|
        invariant prereq == PrereqMap(relations[..i], ids) && succ == SuccMap(relations[..i], ids)
        invariant confusable == PartnerMap(relations[..i], ids)
      {
        MapsGrow(relations[..i], relations[i], ids);
        assert relations[..i] + [relations[i]] == relations[..i + 1];
        AddPrerequisite(relations[i]);
        AddConfusable(relations[i]);
      }
      assert relations[..|relations|] == relations;
    }

    method AddPrerequisite(r: Relation)
      requires prereq.Keys == succ.Keys == ids
      modifies this`prereq, this`succ
      ensures prereq == map id | id in ids :: IntoStep(old(prereq)[id], r, ids, id)
      ensures succ == map id | id in ids :: OutOfStep(old(succ)[id], r, ids, id)
    {
      if r.kind == Prerequisite && r.from in ids && r.to in ids {
        prereq := prereq[r.to := prereq[r.to] + [Edge(r.from, r.weight)]];
        succ := succ[r.from := succ[r.from] + [Edge(r.to, r.weight)]];
      }
    }

    method AddConfusable(r: Relation)
      requires confusable.Keys == ids
      modifies this`confusable
      ensures confusable == map id | id in ids :: PartnersStep(old(confusable)[id], r, ids, id)
    {
      if r.kind == Confusable && r.from in ids && r.to in ids {
        if r.to !in confusable[r.from] {
          confusable := confusable[r.from := confusable[r.from] + [r.to]];
        }
        if r.from !in confusable[r.to] {
          confusable := confusable[r.to := confusable[r.to] + [r.from]];
        }
      }
    }

    /** Visits the edges of one node: every new node is remembered and queued. */
    static method ExpandInto(edges: seq<Edge>, depth: nat, hits: seq<Hit>, queue: seq<(Id, nat)>)
        returns (seen: seq<Hit>, frontier: seq<(Id, nat)>)
      ensures seen == Expand(edges, depth, hits) && hits <= seen
      ensures frontier == queue + Pairs(seen[|hits|..])
    {
      seen, frontier := hits, queue;
      for k := 0 to |edges|
        invariant hits <= seen && frontier == queue + Pairs(seen[|hits|..])
        invariant Expand(edges[k..], depth, seen) == Expand(edges, depth, hits)
      {
        assert edges[k..][1..] == edges[k + 1..];
        if !Seen(seen, edges[k].to) {
          ghost var before := seen[|hits|..];
          var h := Hit(edges[k].to, depth + 1, edges[k].weight);
          seen := seen + [h];
          assert seen[|hits|..] == before + [h];
          assert Pairs(before + [h]) == Pairs(before) + [(h.id, h.depth)];
          frontier := frontier + [(edges[k].to, depth + 1)];
        }
      }
    }

    /** Bounded search with a first-in first-out frontier; also `descendants`, over `succ`. */
    static method BoundedSearch(adj: Adjacency, start: Id, maxDepth: int) returns (seen: seq<Hit>)
      ensures seen == Chain(adj, start, maxDepth)
    {
      hide Bounded, Expand, Targets, QueueOf, Search, Next, Pairs, Queued, Chain;
      seen := [];
      var frontier := [(start, 0)];
      ghost var head := 0;
      SearchStarts(adj, start, maxDepth);
      while frontier != []
        invariant head <= |seen| + 1 && |QueueOf(start, seen)| == |seen| + 1 && frontier == QueueOf(start, seen)[head..]
        invariant Bounded(adj, seen) && Search(adj, start, maxDepth, seen, head) == Chain(adj, start, maxDepth)
        decreases |Targets(adj)| + 1 - head
      {
        SearchStep(adj, start, maxDepth, seen, head);
        QueueHead(start, seen, head);
        var (current, depth) := frontier[0];
        frontier := frontier[1..];
        head := head + 1;
        if depth < maxDepth {
          var more, queue := ExpandInto(Next(adj, current), depth, seen, frontier);
          QueueGrows(start, seen, more);
          seen, frontier := more, queue;
        }
      }
      SearchStep(adj, start, maxDepth, seen, head);
    }

    method PrerequisiteChain(id: Id, maxDepth: int) returns (r: seq<Hit>)
      ensures r == Chain(prereq, id, maxDepth)
    {
      r := BoundedSearch(prereq, id, maxDepth);
    }

    method Descendants(id: Id, maxDepth: int) returns (r: seq<Hit>)
      ensures r == Chain(succ, id, maxDepth)
    {
      r := BoundedSearch(succ, id, maxDepth);
    }
  }

  lemma MapsGrow(relations: seq<Relation>, r: Relation, ids: set<Id>)
    ensures PrereqMap(relations + [r], ids) == map id | id in ids :: IntoStep(PrereqMap(relations, ids)[id], r, ids, id)
    ensures SuccMap(relations + [r], ids) == map id | id in ids :: OutOfStep(SuccMap(relations, ids)[id], r, ids, id)
    ensures PartnerMap(relations + [r], ids) == map id | id in ids :: PartnersStep(PartnerMap(relations, ids)[id], r, ids, id)
  {
    assert (relations + [r])[..|relations|] == relations;
    hide IntoStep, OutOfStep, PartnersStep;
  }

  function PartnerMap(relations: seq<Relation>, ids: set<Id>): map<Id, seq<Id>> {
    map id | id in ids :: PartnersOf(relations, ids, id)
  }

  function Pairs(hits: seq<Hit>): seq<(Id, nat)> {
    seq(|hits|, i requires 0 <= i < |hits| => (hits[i].id, hits[i].depth))
  }

  function QueueOf(start: Id, hits: seq<Hit>): seq<(Id, nat)> {
    [(start, 0)] + Pairs(hits)
  }

  lemma SearchStarts(adj: Adjacency, start: Id, maxDepth: int)
    ensures QueueOf(start, []) == [(start, 0)] && Bounded(adj, [])
    ensures Search(adj, start, maxDepth, [], 0) == Chain(adj, start, maxDepth)
  {
    hide Search;
  }

  lemma QueueGrows(start: Id, hits: seq<Hit>, more: seq<Hit>)
    requires hits <= more
    ensures QueueOf(start, more) == QueueOf(start, hits) + Pairs(more[|hits|..]) && |QueueOf(start, more)| == |more| + 1
  {
  }

  lemma QueueHead(start: Id, hits: seq<Hit>, head: nat)
    requires head <= |hits|
    ensures |QueueOf(start, hits)| == |hits| + 1
    ensures QueueOf(start, hits)[head] == (Queued(start, hits, head).id, Queued(start, hits, head).depth)
  {
  }

  lemma AddedId(points: seq<Point>, p: Point)
    ensures IdsOf(points + [p]) == IdsOf(points) + {p.id} && points + [] == points
  {
    var all := points + [p];
    assert all[|points|] == p && forall i | 0 <= i < |points| :: all[i] == points[i];
  }
}
