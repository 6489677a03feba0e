/** Prerequisite findings and the roots they name: backend/app/pipeline/attribution.py. */
module AttributionRoots {
  import opened Options
  import opened Assessments
  import opened KnowledgeGraph
  import P = PrerequisiteRoots
  import opened Attributions

  /** How a root is put into words. */
  datatype Wording = Wording(line: P.Low -> string, prediction: P.Low -> string)

  function Lines(w: Wording, lows: seq<P.Low>): seq<string> {
    seq(|lows|, i requires 0 <= i < |lows| => w.line(lows[i]))
  }

  /** The prerequisite engine on a graph and what is known of the student. */
  function Deficit(adj: Adjacency, k: P.Known, w: Wording, a: Assessment): Option<Claim> {
    var root := P.Root(adj, k, a.point);
    if root.None? then None else
      var lows := P.Ranked(adj, k, a.point);
      Some(Claim(P.Confidence(|lows|, root.value), Some(root.value.id), Lines(w, lows), w.prediction(root.value)))
  }

  function WithDeficit(e: Engines, adj: Adjacency, k: P.Known, w: Wording): Engines {
    e.(deficit := (a: Assessment) => Deficit(adj, k, w, a))
  }

  /** The assessment is one that causes are looked for. */
  predicate Attributable(a: Assessment) {
    a.gate == Open && !a.lowEvidence && a.weak
  }

  /** One assessment yields a finding exactly when its gate asks for data, or when it is weak on enough
      evidence and the engine of that cause makes the claim. */
  lemma HypothesisIff(e: Engines, a: Assessment, f: Finding)
    ensures f in AttributeAssessment(e, a) <==>
            f.key.point == a.point &&
            match f.key.cause
            case TooLittleData => a.gate == Insufficient && f.claim == e.tooLittle(a)
            case Prerequisite => Attributable(a) && e.deficit(a) == Some(f.claim)
            case Forgetting => Attributable(a) && e.forgetting(a) == Some(f.claim)
            case Confusable => Attributable(a) && e.confusion(a) == Some(f.claim)
  {
  }

  /** Prerequisites come first, then forgetting, then confusion. */
  lemma HypothesesInOrder(e: Engines, a: Assessment, i: nat, k: nat)
    requires i < k < |AttributeAssessment(e, a)|
    ensures var all := AttributeAssessment(e, a);
            (all[k].key.cause == Confusable && all[i].key.cause != Confusable) || (all[i].key.cause == Prerequisite && all[k].key.cause == Forgetting)
  {
  }

  lemma {:induction false} FindingsOf(e: Engines, s: seq<Assessment>, f: Finding)
    ensures f in AllFindings(e, s) <==> exists i :: 0 <= i < |s| && f in AttributeAssessment(e, s[i])
  {
    hide AttributeAssessment;
    if s != [] {
      var n := |s| - 1;
      FindingsOf(e, s[..n], f);
      if i :| 0 <= i < n && f in AttributeAssessment(e, s[..n][i]) { assert s[i] == s[..n][i]; }
      if i :| 0 <= i < |s| && f in AttributeAssessment(e, s[i]) {
        if i < n { assert s[..n][i] == s[i]; }
      }
    }
  }

  /** Somewhere the findings blame a prerequisite of the point. */
  ghost predicate Blames(findings: seq<Finding>, point: nat) {
    exists i :: 0 <= i < |findings| && findings[i].key == Key(point, Prerequisite)
  }

  lemma DerivedKeys(e: Engines, s: seq<Assessment>, point: nat)
    ensures Blames(Derive(e, s), point) <==> Blames(AllFindings(e, s), point)
  {
    hide AllFindings, WeakEverywhere;
    var all, derived := AllFindings(e, s), Derive(e, s);
    assert |all| == |derived| && forall i | 0 <= i < |all| :: derived[i].key == all[i].key;
    if i :| 0 <= i < |all| && all[i].key == Key(point, Prerequisite) { assert derived[i].key == all[i].key; }
    if i :| 0 <= i < |derived| && derived[i].key == Key(point, Prerequisite) { assert all[i].key == derived[i].key; }
  }

  /** Some prerequisite within three steps is weak on enough evidence. */
  ghost predicate Explained(adj: Adjacency, k: P.Known, point: nat) {
    exists x, d: nat :: P.Explains(adj, k, point, x, d)
  }

  lemma DeficitIff(adj: Adjacency, k: P.Known, w: Wording, a: Assessment)
    ensures Deficit(adj, k, w, a).Some? <==> Explained(adj, k, a.point)
  {
    hide P.Root, P.Explains;
    P.RootIsFoundIff(adj, k, a.point);
  }

  /** The findings blame a prerequisite of a point exactly when the point is assessed as weak on
      enough evidence and some prerequisite within three steps explains it. */
  lemma BlamedIff(e: Engines, adj: Adjacency, k: P.Known, w: Wording, s: seq<Assessment>, point: nat)
    ensures Blames(Derive(WithDeficit(e, adj, k, w), s), point) <==>
            exists i :: 0 <= i < |s| && s[i].point == point && Attributable(s[i]) && Explained(adj, k, point)
  {
    hide Deficit, AllFindings, Derive, AttributeAssessment, Explained;
    var e' := WithDeficit(e, adj, k, w);
    var all := AllFindings(e', s);
    DerivedKeys(e', s, point);
    if j :| 0 <= j < |all| && all[j].key == Key(point, Prerequisite) {
      FindingsOf(e', s, all[j]);
      var i :| 0 <= i < |s| && all[j] in AttributeAssessment(e', s[i]);
      HypothesisIff(e', s[i], all[j]);
      DeficitIff(adj, k, w, s[i]);
    }
    if i :| 0 <= i < |s| && s[i].point == point && Attributable(s[i]) && Explained(adj, k, point) {
      DeficitIff(adj, k, w, s[i]);
      var f := Finding(Key(point, Prerequisite), Deficit(adj, k, w, s[i]).value);
      HypothesisIff(e', s[i], f);
      FindingsOf(e', s, f);
      var j :| 0 <= j < |all| && all[j] == f;
    }
  }

  /** The finding a prerequisite claim was derived from, before any cap. */
  lemma DerivedFrom(e: Engines, adj: Adjacency, k: P.Known, w: Wording, s: seq<Assessment>, i: nat)
    requires i < |Derive(WithDeficit(e, adj, k, w), s)| && Derive(WithDeficit(e, adj, k, w), s)[i].key.cause == Prerequisite
    ensures var e' := WithDeficit(e, adj, k, w);
            var f := Derive(e', s)[i];
            var root, n := P.Root(adj, k, f.key.point), |P.Ranked(adj, k, f.key.point)|;
            && root.Some? && f.claim.root == Some(root.value.id) && f.claim.prediction == w.prediction(root.value)
            && f.claim.evidence == Lines(w, P.Ranked(adj, k, f.key.point)) + (if WeakEverywhere(e', s) then [WeakEverywhereLine] else [])
            && f.claim.confidence ==
               if WeakEverywhere(e', s) then P.Min(P.Confidence(n, root.value), e.cap) else P.Confidence(n, root.value)
  {
    hide AllFindings, AttributeAssessment, P.Root, P.Ranked, WeakEverywhere, P.Confidence;
    var e' := WithDeficit(e, adj, k, w);
    var all := AllFindings(e', s);
    var derived := Derive(e', s);
    assert |derived| == |all| && derived[i] == if WeakEverywhere(e', s) then Capped(e', all[i]) else all[i];
    FindingsOf(e', s, all[i]);
    var j :| 0 <= j < |s| && all[i] in AttributeAssessment(e', s[j]);
    HypothesisIff(e', s[j], all[i]);
    assert Deficit(adj, k, w, s[j]) == Some(all[i].claim);
  }

  /** The root a prerequisite finding names, and predicts about, explains its point; no other candidate of the
      chain has a larger gap to 0.6, tuned by its edge, or at the same gap lies nearer; and on the
      evidence it was derived from verification would not falsify it. */
  lemma BlamedRootIsBest(e: Engines, adj: Adjacency, k: P.Known, w: Wording, s: seq<Assessment>, i: nat, minEvidence: nat)
    requires i < |Derive(WithDeficit(e, adj, k, w), s)| && Derive(WithDeficit(e, adj, k, w), s)[i].key.cause == Prerequisite
    ensures var f := Derive(WithDeficit(e, adj, k, w), s)[i];
            var hits := Chain(adj, f.key.point, 3);
            exists h :: 0 <= h < |hits| && f.claim.root == Some(hits[h].id) && IsBest(k, hits, h)
                        && P.Explains(adj, k, f.key.point, hits[h].id, hits[h].depth)
                        && f.claim.prediction == w.prediction(P.Low(hits[h].id, hits[h].depth, hits[h].weight, k.mastery(hits[h].id).value))
                        && !Judge(k.count(hits[h].id), k.mastery(hits[h].id), minEvidence).Falsified?
  {
    hide Derive, P.Root, Chain, KnowledgeGraph.Shortest;
    DerivedFrom(e, adj, k, w, s, i);
    var point := Derive(WithDeficit(e, adj, k, w), s)[i].key.point;
    var h := P.RootIsBestExplanation(adj, k, point);
    assert IsBest(k, Chain(adj, point, 3), h);
  }

  /** Hit h is a candidate, and its gap to 0.6, tuned by its edge, is at least that of every candidate; those
      with the same gap are no nearer and come later. */
  ghost predicate IsBest(k: P.Known, hits: seq<Hit>, h: int)
    requires 0 <= h < |hits|
  {
    && P.Candidate(k, hits[h])
    && forall j | 0 <= j < |hits| && P.Candidate(k, hits[j]) ::
         var best, gap := (0.6 - k.mastery(hits[h].id).value) * (0.5 + 0.5 * hits[h].weight),
                          (0.6 - k.mastery(hits[j].id).value) * (0.5 + 0.5 * hits[j].weight);
         best >= gap && (best == gap ==> hits[h].depth <= hits[j].depth && h <= j)
  }

  ghost function Candidates(k: P.Known, hits: seq<Hit>): set<nat> {
    set j: nat | j < |hits| && P.Candidate(k, hits[j])
  }

  lemma {:induction false} LowsAreCandidates(k: P.Known, hits: seq<Hit>)
    ensures |P.Lows(k, hits)| == |Candidates(k, hits)|
  {
    if hits == [] {
      assert Candidates(k, hits) == {};
    } else {
      var n := |hits| - 1;
      LowsAreCandidates(k, hits[..n]);
      var before := Candidates(k, hits[..n]);
      assert Candidates(k, hits) == if P.Candidate(k, hits[n]) then before + {n} else before;
    }
  }

  /** A prerequisite claim is made with confidence 0.7, 0.8 or 0.9 for one, two or more candidates, and 0.05
      more for a root below 0.4; a student weak everywhere lowers it to the cap. */
  lemma BlamedConfidence(e: Engines, adj: Adjacency, k: P.Known, w: Wording, s: seq<Assessment>, i: nat)
    requires i < |Derive(WithDeficit(e, adj, k, w), s)| && Derive(WithDeficit(e, adj, k, w), s)[i].key.cause == Prerequisite
    ensures var e' := WithDeficit(e, adj, k, w);
            var f := Derive(e', s)[i];
            var n := |Candidates(k, Chain(adj, f.key.point, 3))|;
            && f.claim.root.Some? && k.mastery(f.claim.root.value).Some?
            && var sure := (if n == 1 then 0.7 else if n == 2 then 0.8 else 0.9) + (if k.mastery(f.claim.root.value).value < 0.4 then 0.05 else 0.0);
               f.claim.confidence == if WeakEverywhere(e', s) && e.cap < sure then e.cap else sure
  {
    hide Derive, P.Root, Chain, KnowledgeGraph.Shortest, P.Lows, P.SortLows, P.Confidence, WeakEverywhere, Candidates;
    DerivedFrom(e, adj, k, w, s, i);
    var point := Derive(WithDeficit(e, adj, k, w), s)[i].key.point;
    var _ := P.RootIsBestExplanation(adj, k, point);
    LowsAreThere(adj, k, point);
    P.SortLowsKeeps(P.Lows(k, Chain(adj, point, 3)));
    LowsAreCandidates(k, Chain(adj, point, 3));
    P.ConfidenceIs(|P.Ranked(adj, k, point)|, P.Root(adj, k, point).value);
  }

  lemma LowsAreThere(adj: Adjacency, k: P.Known, point: nat)
    requires P.Root(adj, k, point).Some?
    ensures |P.Ranked(adj, k, point)| >= 1
  {
    hide P.Ranked;
  }
}
