/** Tracing a weak point to its root among its prerequisites: backend/app/pipeline/attribution.py. */
module PrerequisiteRoots {
  import opened Options
  import opened Assessments
  import opened KnowledgeGraph
  import opened GraphTheorems

  const MaxDepth := 3
  const Watermark := 3

  /** A weak, well-evidenced prerequisite. */
  datatype Low = Low(id: Id, depth: nat, weight: real, mastery: real)

  /** What is known of a student at each point. */
  datatype Known = Known(count: Id -> nat, mastery: Id -> Option<real>)

  predicate IsLow(k: Known, id: Id) {
    k.count(id) >= Watermark && k.mastery(id).Some? && k.mastery(id).value < RootThreshold
  }

  function LowOf(k: Known, h: Hit): Low
    requires IsLow(k, h.id)
  {
    Low(h.id, h.depth, h.weight, k.mastery(h.id).value)
  }

  function Lows(k: Known, hits: seq<Hit>): seq<Low> {
    if hits == [] then [] else
      var front, last := Lows(k, hits[..|hits| - 1]), hits[|hits| - 1];
      if IsLow(k, last.id) then front + [LowOf(k, last)] else front
  }

  /** The gap to the threshold, tuned by the strength of the edge. */
  function Score(l: Low): real {
    (RootThreshold - l.mastery) * (0.5 + 0.5 * l.weight)
  }

  predicate Before(a: Low, b: Low) {
    Score(a) > Score(b) || (Score(a) == Score(b) && a.depth < b.depth)
  }

  function InsertLow(sorted: seq<Low>, l: Low): seq<Low> {
    if sorted == [] then [l] else
      var front, last := sorted[..|sorted| - 1], sorted[|sorted| - 1];
      if Before(l, last) then InsertLow(front, l) + [last] else sorted + [l]
  }

  /** The stable sort by descending score, then depth. */
  function SortLows(lows: seq<Low>): seq<Low> {
    if lows == [] then [] else InsertLow(SortLows(lows[..|lows| - 1]), lows[|lows| - 1])
  }

  /** The weak prerequisites of a point, best explanation first. */
  function Ranked(adj: Adjacency, k: Known, point: Id): seq<Low> {
    SortLows(Lows(k, Chain(adj, point, MaxDepth)))
  }

  function Root(adj: Adjacency, k: Known, point: Id): Option<Low> {
    var ranked := Ranked(adj, k, point);
    if ranked == [] then None else Some(ranked[0])
  }

  function Min(a: real, b: real): real {
    if a < b then a else b
  }

  function Confidence(n: nat, root: Low): real {
    var base := Min(0.9, 0.6 + 0.1 * n as real);
    if root.mastery < 0.4 then Min(0.95, base + 0.05) else base
  }

  // ----- What the root is ------------------------------------------------------------------------

  ghost predicate Sorted(lows: seq<Low>) {
    forall i, k | 0 <= i < k < |lows| :: !Before(lows[k], lows[i])
  }

  lemma NotBeforeIsTransitive(a: Low, b: Low, c: Low)
    requires !Before(b, a) && !Before(c, b)
    ensures !Before(c, a)
  {
    hide Score;
  }

  lemma BeforeIsAsymmetric(a: Low, b: Low)
    requires Before(a, b)
    ensures !Before(b, a)
  {
    hide Score;
  }

  lemma {:induction false} InsertHas(sorted: seq<Low>, l: Low)
    ensures |InsertLow(sorted, l)| == |sorted| + 1
    ensures forall x :: x in InsertLow(sorted, l) <==> x in sorted || x == l
  {
    hide Before;
    if sorted != [] {
      InsertHas(sorted[..|sorted| - 1], l);
      assert sorted == sorted[..|sorted| - 1] + [sorted[|sorted| - 1]];
    }
  }

  lemma SortedAppend(lows: seq<Low>, l: Low)
    requires Sorted(lows) && forall x | x in lows :: !Before(l, x)
    ensures Sorted(lows + [l])
  {
    hide Before;
    assert forall i | 0 <= i < |lows| :: lows[i] in lows;
  }

  lemma {:induction false} InsertSorts(sorted: seq<Low>, l: Low)
    requires Sorted(sorted)
    ensures Sorted(InsertLow(sorted, l))
  {
    hide Before;
    if sorted != [] {
      var front, last := sorted[..|sorted| - 1], sorted[|sorted| - 1];
      assert sorted == front + [last];
      if Before(l, last) {
        InsertSorts(front, l);
        InsertHas(front, l);
        BeforeIsAsymmetric(l, last);
        forall x | x in InsertLow(front, l) ensures !Before(last, x) {
          if x in front {
            var i :| 0 <= i < |front| && front[i] == x;
            assert sorted[i] == x;
          }
        }
        SortedAppend(InsertLow(front, l), last);
      } else {
        forall x | x in sorted ensures !Before(l, x) {
          var i :| 0 <= i < |sorted| && sorted[i] == x;
          if i < |sorted| - 1 { NotBeforeIsTransitive(x, last, l); }
        }
        SortedAppend(sorted, l);
      }
    }
  }

  lemma {:induction false} SortLowsKeeps(lows: seq<Low>)
    ensures Sorted(SortLows(lows)) && |SortLows(lows)| == |lows|
    ensures forall x :: x in SortLows(lows) <==> x in lows
  {
    hide InsertLow, Sorted;
    if lows == [] { NothingIsSorted(); } else {
      var front, last := lows[..|lows| - 1], lows[|lows| - 1];
      assert lows == front + [last];
      SortLowsKeeps(front);
      InsertSorts(SortLows(front), last);
      InsertHas(SortLows(front), last);
    }
  }

  /** Ranking keeps every weak prerequisite; the gaps to 0.6, tuned by the edges, never rise along it, and
      where they are equal the depths never fall. */
  lemma SortLowsSorts(lows: seq<Low>)
    ensures var sorted := SortLows(lows);
            && |sorted| == |lows| && (forall x :: x in sorted <==> x in lows)
            && forall i, k | 0 <= i < k < |sorted| ::
                 var a, b := sorted[i], sorted[k];
                 && (0.6 - a.mastery) * (0.5 + 0.5 * a.weight) >= (0.6 - b.mastery) * (0.5 + 0.5 * b.weight)
                 && ((0.6 - a.mastery) * (0.5 + 0.5 * a.weight) == (0.6 - b.mastery) * (0.5 + 0.5 * b.weight) ==> a.depth <= b.depth)
  {
    hide SortLows, Before;
    SortLowsKeeps(lows);
    var sorted := SortLows(lows);
    forall i, k | 0 <= i < k < |sorted| ensures
      var a, b := sorted[i], sorted[k];
      && (0.6 - a.mastery) * (0.5 + 0.5 * a.weight) >= (0.6 - b.mastery) * (0.5 + 0.5 * b.weight)
      && ((0.6 - a.mastery) * (0.5 + 0.5 * a.weight) == (0.6 - b.mastery) * (0.5 + 0.5 * b.weight) ==> a.depth <= b.depth)
    {
      NotBeforeMeans(sorted[i], sorted[k]);
    }
  }

  /** b does not come before a: its gap to 0.6, tuned by its edge, is no larger and, if equal, it is no nearer. */
  lemma NotBeforeMeans(a: Low, b: Low)
    requires !Before(b, a)
    ensures (0.6 - a.mastery) * (0.5 + 0.5 * a.weight) >= (0.6 - b.mastery) * (0.5 + 0.5 * b.weight)
    ensures (0.6 - a.mastery) * (0.5 + 0.5 * a.weight) == (0.6 - b.mastery) * (0.5 + 0.5 * b.weight) ==> a.depth <= b.depth
  {
  }

  lemma NothingIsSorted()
    ensures Sorted([])
  {
  }

  lemma {:induction false} InsertHead(sorted: seq<Low>, l: Low)
    requires Sorted(sorted) && sorted != []
    ensures InsertLow(sorted, l)[0] == if Before(l, sorted[0]) then l else sorted[0]
  {
    hide Before;
    var front, last := sorted[..|sorted| - 1], sorted[|sorted| - 1];
    if front != [] {
      InsertHead(front, l);
      InsertHas(front, l);
      if Before(l, front[0]) { BeforeCarries(l, front[0], last); }
    } else {
      assert InsertLow([], l) == [l];
    }
  }

  lemma BeforeCarries(a: Low, b: Low, c: Low)
    requires Before(a, b) && !Before(c, b)
    ensures Before(a, c)
  {
    hide Score;
  }

  /** Hit h is the best: better than every candidate before it and no worse than any after it. */
  ghost predicate FirstBest(k: Known, hits: seq<Hit>, h: nat) {
    && h < |hits| && IsLow(k, hits[h].id)
    && (forall j | 0 <= j < h && IsLow(k, hits[j].id) :: Before(LowOf(k, hits[h]), LowOf(k, hits[j])))
    && (forall j | h < j < |hits| && IsLow(k, hits[j].id) :: !Before(LowOf(k, hits[j]), LowOf(k, hits[h])))
  }

  lemma {:induction false} HeadIsFirstBest(k: Known, hits: seq<Hit>) returns (h: nat)
    requires Lows(k, hits) != []
    ensures FirstBest(k, hits, h) && SortLows(Lows(k, hits)) != [] && SortLows(Lows(k, hits))[0] == LowOf(k, hits[h])
  {
    hide Before, InsertLow, IsLow;
    var n := |hits| - 1;
    var front, l := hits[..n], hits[n];
    var lows := Lows(k, front);
    SortLowsKeeps(lows);
    SortLowsKeeps(Lows(k, hits));
    if IsLow(k, l.id) {
      assert (lows + [LowOf(k, l)])[..|lows|] == lows;
      assert SortLows(lows + [LowOf(k, l)]) == InsertLow(SortLows(lows), LowOf(k, l));
      assert Lows(k, hits) == lows + [LowOf(k, l)];
    }
    if lows == [] {
      h := n;
      forall j | 0 <= j < n && IsLow(k, hits[j].id) ensures false { HitsAreLows(k, front, j); }
      OneInserted(LowOf(k, l));
    } else {
      h := HeadIsFirstBest(k, front);
      var best := LowOf(k, hits[h]);
      if IsLow(k, l.id) {
        InsertHead(SortLows(lows), LowOf(k, l));
        if Before(LowOf(k, l), best) {
          forall j | 0 <= j < n && IsLow(k, hits[j].id) ensures Before(LowOf(k, l), LowOf(k, hits[j])) {
            if j < h { BeforeIsAsymmetric(best, LowOf(k, front[j])); } else if j == h { } else { assert !Before(LowOf(k, front[j]), best); }
            BeforeCarriesOrSame(LowOf(k, l), best, LowOf(k, hits[j]));
          }
          h := n;
        }
      }
    }
  }

  lemma BeforeCarriesOrSame(a: Low, b: Low, c: Low)
    requires Before(a, b) && (Before(b, c) || !Before(c, b))
    ensures Before(a, c)
  {
    hide Score;
  }

  lemma OneInserted(l: Low)
    ensures InsertLow(SortLows([]), l) == [l]
  {
  }

  lemma {:induction false} LowsAreHits(k: Known, hits: seq<Hit>, i: nat)
    requires i < |Lows(k, hits)|
    ensures exists j :: 0 <= j < |hits| && IsLow(k, hits[j].id) && Lows(k, hits)[i] == LowOf(k, hits[j])
  {
    var n := |hits| - 1;
    if i < |Lows(k, hits[..n])| {
      LowsAreHits(k, hits[..n], i);
      var j :| 0 <= j < n && IsLow(k, hits[..n][j].id) && Lows(k, hits[..n])[i] == LowOf(k, hits[..n][j]);
      assert hits[j] == hits[..n][j];
    } else {
      assert Lows(k, hits)[i] == LowOf(k, hits[n]);
    }
  }

  lemma {:induction false} HitsAreLows(k: Known, hits: seq<Hit>, j: nat)
    requires j < |hits| && IsLow(k, hits[j].id)
    ensures LowOf(k, hits[j]) in Lows(k, hits)
  {
    if j < |hits| - 1 { HitsAreLows(k, hits[..|hits| - 1], j); }
  }

  /** Within three steps back, the point has a weak, well-evidenced prerequisite. */
  ghost predicate Explains(adj: Adjacency, k: Known, point: Id, x: Id, d: nat) {
    d <= 3 && Shortest(adj, point, x, d) && k.count(x) >= 3 && k.mastery(x).Some? && k.mastery(x).value < 0.6
  }

  lemma HitExplains(adj: Adjacency, k: Known, point: Id, j: nat)
    requires j < |Chain(adj, point, MaxDepth)| && IsLow(k, Chain(adj, point, MaxDepth)[j].id)
    ensures var h := Chain(adj, point, MaxDepth)[j]; Explains(adj, k, point, h.id, h.depth)
  {
    hide Chain, Shortest;
    ChainIsExact(adj, point, MaxDepth);
  }

  lemma ExplanationIsHit(adj: Adjacency, k: Known, point: Id, x: Id, d: nat) returns (j: nat)
    requires Explains(adj, k, point, x, d)
    ensures j < |Chain(adj, point, MaxDepth)| && Chain(adj, point, MaxDepth)[j].id == x
  {
    hide Chain, Shortest, IsLow;
    ChainIsExact(adj, point, MaxDepth);
    var hits := Chain(adj, point, MaxDepth);
    j :| 0 <= j < |hits| && hits[j].id == x && hits[j].depth == d;
  }

  /** A root is found exactly when some prerequisite within three steps explains the weakness ... */
  lemma RootIsFoundIff(adj: Adjacency, k: Known, point: Id)
    ensures Root(adj, k, point).Some? <==> exists x, d: nat :: Explains(adj, k, point, x, d)
  {
    hide Chain, Explains;
    var hits := Chain(adj, point, MaxDepth);
    SortLowsKeeps(Lows(k, hits));
    if Root(adj, k, point).Some? {
      LowsAreHits(k, hits, 0);
      var j :| 0 <= j < |hits| && IsLow(k, hits[j].id) && Lows(k, hits)[0] == LowOf(k, hits[j]);
      HitExplains(adj, k, point, j);
    }
    if x, d: nat :| Explains(adj, k, point, x, d) {
      var j := ExplanationIsHit(adj, k, point, x, d);
      ExplainedIsLow(adj, k, point, x, d);
      HitsAreLows(k, hits, j);
    }
  }

  lemma ExplainedIsLow(adj: Adjacency, k: Known, point: Id, x: Id, d: nat)
    requires Explains(adj, k, point, x, d)
    ensures IsLow(k, x)
  {
  }

  /** A candidate of a chain: enough evidence and a mastery below 0.6. */
  predicate Candidate(k: Known, h: Hit) {
    k.count(h.id) >= 3 && k.mastery(h.id).Some? && k.mastery(h.id).value < 0.6
  }

  /** ... and it is one of those, at its shortest distance: no candidate has a larger gap to 0.6, tuned by
      the edge that reaches it; those met earlier in the chain have a smaller one, and at an equal
      gap none is nearer. */
  lemma RootIsBestExplanation(adj: Adjacency, k: Known, point: Id) returns (h: nat)
    requires Root(adj, k, point).Some?
    ensures var r, hits := Root(adj, k, point).value, Chain(adj, point, 3);
            && Explains(adj, k, point, r.id, r.depth) && k.mastery(r.id) == Some(r.mastery)
            && h < |hits| && hits[h] == Hit(r.id, r.depth, r.weight)
            && forall j | 0 <= j < |hits| && Candidate(k, hits[j]) ::
                 var gap := (0.6 - k.mastery(hits[j].id).value) * (0.5 + 0.5 * hits[j].weight);
                 && (0.6 - r.mastery) * (0.5 + 0.5 * r.weight) >= gap
                 && ((0.6 - r.mastery) * (0.5 + 0.5 * r.weight) == gap ==> r.depth <= hits[j].depth && h <= j)
  {
    hide Chain, Explains, Before, Lows;
    var hits := Chain(adj, point, MaxDepth);
    var lows := Lows(k, hits);
    SortLowsKeeps(lows);
    h := HeadIsFirstBest(k, hits);
    HitExplains(adj, k, point, h);
    DepthsRise(adj, point);
    var r := LowOf(k, hits[h]);
    forall j | 0 <= j < |hits| && Candidate(k, hits[j]) ensures
      var gap := (0.6 - k.mastery(hits[j].id).value) * (0.5 + 0.5 * hits[j].weight);
      && (0.6 - r.mastery) * (0.5 + 0.5 * r.weight) >= gap
      && ((0.6 - r.mastery) * (0.5 + 0.5 * r.weight) == gap ==> r.depth <= hits[j].depth && h <= j)
    {
      var low := LowOf(k, hits[j]);
      if j < h {
        assert hits[j].depth <= hits[h].depth;
        BeforeDeeper(r, low);
      } else {
        if j == h { NotBeforeItself(r); }
        NotBeforeMeans(r, low);
      }
    }
  }

  lemma NotBeforeItself(l: Low)
    ensures !Before(l, l)
  {
  }

  lemma BeforeDeeper(a: Low, b: Low)
    requires Before(a, b) && b.depth <= a.depth
    ensures (0.6 - a.mastery) * (0.5 + 0.5 * a.weight) > (0.6 - b.mastery) * (0.5 + 0.5 * b.weight)
  {
  }

  lemma DepthsRise(adj: Adjacency, point: Id)
    ensures var hits := Chain(adj, point, MaxDepth); forall i, j | 0 <= i < j < |hits| :: hits[i].depth <= hits[j].depth
  {
    hide Chain, Shortest;
    ChainIsExact(adj, point, MaxDepth);
  }

  /** So, among candidates reached by equally strong edges, the root has the lowest mastery, and among
      equally weak ones it is reached by the strongest edge. */
  lemma RootComparisons(adj: Adjacency, k: Known, point: Id, j: nat)
    requires Root(adj, k, point).Some? && j < |Chain(adj, point, 3)| && Candidate(k, Chain(adj, point, 3)[j])
    ensures var r, h := Root(adj, k, point).value, Chain(adj, point, 3)[j];
            && (h.weight == r.weight > -1.0 ==> r.mastery <= k.mastery(h.id).value)
            && (k.mastery(h.id).value == r.mastery ==> h.weight <= r.weight)
  {
    hide Chain, Root, Explains;
    var _ := RootIsBestExplanation(adj, k, point);
    var r, h := Root(adj, k, point).value, Chain(adj, point, 3)[j];
    RootIsBelow(adj, k, point);
    LargerGap(r.mastery, r.weight, k.mastery(h.id).value, h.weight);
  }

  lemma LargerGap(m: real, w: real, m': real, w': real)
    requires m < 0.6 && (0.6 - m) * (0.5 + 0.5 * w) >= (0.6 - m') * (0.5 + 0.5 * w')
    ensures w' == w > -1.0 ==> m <= m'
    ensures m' == m ==> w' <= w
  {
    if w' == w > -1.0 { SmallerFactor(0.6 - m, 0.6 - m', 0.5 + 0.5 * w); }
    if m' == m { SmallerFactor(0.5 + 0.5 * w, 0.5 + 0.5 * w', 0.6 - m); }
  }

  lemma RootIsBelow(adj: Adjacency, k: Known, point: Id)
    requires Root(adj, k, point).Some?
    ensures Root(adj, k, point).value.mastery < 0.6
  {
    hide Chain, Root, Shortest;
    var _ := RootIsBestExplanation(adj, k, point);
  }

  lemma SmallerFactor(a: real, b: real, c: real)
    requires c > 0.0 && (a * c >= b * c || c * a >= c * b)
    ensures a >= b
  {
    assert a < b ==> (b - a) * c > 0.0;
  }

  /** One, two, or three and more candidates give 0.7, 0.8 and 0.9; a root below 0.4 adds 0.05. */
  lemma ConfidenceIs(n: nat, root: Low)
    requires n >= 1
    ensures Confidence(n, root) ==
            (if n == 1 then 0.7 else if n == 2 then 0.8 else 0.9) + (if root.mastery < 0.4 then 0.05 else 0.0)
  {
    assert n >= 3 ==> 0.1 * n as real >= 0.3;
  }

  /** Confidence lies between 0.7 and 0.95, and never falls as more weak prerequisites turn up. */
  lemma ConfidenceIsBounded(n: nat, m: nat, root: Low)
    requires 1 <= n <= m
    ensures 0.7 <= Confidence(n, root) <= Confidence(m, root) <= 0.95
  {
    assert 0.1 * n as real <= 0.1 * m as real;
  }
}
