/** What the comparison of two versions lists and when activation goes through, said on the points themselves. */
module Comparison {
  import opened Options
  import opened KnowledgeGraph
  import opened KnowledgeBase
  import opened Versioning
  import opened ForkTheorems

  /** Row i is a point of the version with this code. */
  predicate Codes(points: seq<Point>, version: nat, code: string, i: int) {
    0 <= i < |points| && points[i].version == version && points[i].code == code
  }

  ghost predicate HasCode(points: seq<Point>, version: nat, code: string) {
    exists i :: Codes(points, version, code, i)
  }

  /** The change says how the field differs between p and q, old value first. */
  predicate Between(x: Change, p: Point, q: Point) {
    match x
    case FloorChange(_, before, after) => before == p.masteryFloor && after == q.masteryFloor && before != after
    case PriorChange(_, before, after) => before == p.difficultyPrior && after == q.difficultyPrior && before != after
    case ArchivedChange(_, before, after) => before == p.archived && after == q.archived && before != after
  }

  /** Two points of the code differ in the field the change names. */
  ghost predicate Differs(points: seq<Point>, active: nat, target: nat, x: Change) {
    exists i, k :: Codes(points, active, x.code, i) && Codes(points, target, x.code, k) && Between(x, points[i], points[k])
  }

  lemma {:induction false} ByCodeIs(points: seq<Point>, version: nat, code: string)
    ensures code in ByCode(points, version) <==> HasCode(points, version, code)
    ensures code in ByCode(points, version) ==>
              exists i :: Codes(points, version, code, i) && ByCode(points, version)[code] == points[i]
  {
    if points != [] {
      var n := |points| - 1;
      var front := points[..n];
      ByCodeIs(front, version, code);
      forall i | 0 <= i < n ensures Codes(front, version, code, i) <==> Codes(points, version, code, i) {
      }
      if points[n].version == version && points[n].code == code {
        assert Codes(points, version, code, n);
      } else if code in ByCode(front, version) {
        var i :| Codes(front, version, code, i) && ByCode(front, version)[code] == front[i];
        assert Codes(points, version, code, i);
      }
    }
  }

  lemma OneRowPerCode(s: Store, version: nat, code: string, i: int, k: int)
    requires WellFormed(s) && Codes(s.points, version, code, i) && Codes(s.points, version, code, k)
    ensures i == k
  {
  }

  /** With unique codes the lookup gives the one row of the code. */
  lemma ByCodeIsRow(s: Store, version: nat, code: string, i: int)
    requires WellFormed(s) && Codes(s.points, version, code, i)
    ensures code in ByCode(s.points, version) && ByCode(s.points, version)[code] == s.points[i]
  {
    hide ByCode, WellFormed;
    ByCodeIs(s.points, version, code);
    var k :| Codes(s.points, version, code, k) && ByCode(s.points, version)[code] == s.points[k];
    OneRowPerCode(s, version, code, i, k);
  }

  /** The codes that only one of the versions has ... */
  lemma MissingAndAdded(s: Store, active: nat, target: nat, code: string)
    ensures code in Compatibility(s.points, active, target).missing <==>
            HasCode(s.points, active, code) && !HasCode(s.points, target, code)
    ensures code in Compatibility(s.points, active, target).added <==>
            HasCode(s.points, target, code) && !HasCode(s.points, active, code)
  {
    hide ByCode, HasCode;
    ByCodeIs(s.points, active, code);
    ByCodeIs(s.points, target, code);
  }

  /** The changes, by lookup. */
  lemma ChangesLookedUp(points: seq<Point>, active: nat, target: nat, x: Change)
    ensures var a, t := ByCode(points, active), ByCode(points, target);
            x in Compatibility(points, active, target).changes <==>
            x.code in a && x.code in t && Between(x, a[x.code], t[x.code])
  {
    hide ByCode;
  }

  /** ... and the fields in which points of a shared code differ, old value first. */
  lemma ChangesAreDifferences(s: Store, active: nat, target: nat, x: Change)
    requires WellFormed(s)
    ensures x in Compatibility(s.points, active, target).changes <==> Differs(s.points, active, target, x)
  {
    hide ByCode, WellFormed, Compatibility, Codes, Between;
    var a, t := ByCode(s.points, active), ByCode(s.points, target);
    ChangesLookedUp(s.points, active, target, x);
    ByCodeIs(s.points, active, x.code);
    ByCodeIs(s.points, target, x.code);
    forall i | Codes(s.points, active, x.code, i) ensures 0 <= i < |s.points| && x.code in a && a[x.code] == s.points[i] {
      ByCodeIsRow(s, active, x.code, i);
      CodesInRange(s.points, active, x.code, i);
    }
    forall k | Codes(s.points, target, x.code, k) ensures 0 <= k < |s.points| && x.code in t && t[x.code] == s.points[k] {
      ByCodeIsRow(s, target, x.code, k);
      CodesInRange(s.points, target, x.code, k);
    }
  }

  lemma CodesInRange(points: seq<Point>, version: nat, code: string, i: int)
    requires Codes(points, version, code, i)
    ensures 0 <= i < |points|
  {
  }

  // ----- Activation -----------------------------------------------------------------------------

  /** Every code of the active version is in the target. */
  ghost predicate Covers(points: seq<Point>, active: nat, target: nat) {
    forall i | 0 <= i < |points| && points[i].version == active :: HasCode(points, target, points[i].code)
  }

  /** Points with the same code agree in floor, prior and archival. */
  ghost predicate Agrees(points: seq<Point>, active: nat, target: nat) {
    forall i, k | 0 <= i < |points| && 0 <= k < |points| && points[i].version == active && points[k].version == target
                  && points[i].code == points[k].code ::
      && points[i].masteryFloor == points[k].masteryFloor && points[i].difficultyPrior == points[k].difficultyPrior
      && points[i].archived == points[k].archived
  }

  lemma NothingMissingIff(s: Store, active: nat, target: nat)
    ensures Compatibility(s.points, active, target).missing == {} <==> Covers(s.points, active, target)
  {
    hide Compatibility, HasCode;
    var missing := Compatibility(s.points, active, target).missing;
    forall code ensures code in missing <==> HasCode(s.points, active, code) && !HasCode(s.points, target, code) {
      MissingAndAdded(s, active, target, code);
    }
    if missing == {} {
      forall i | 0 <= i < |s.points| && s.points[i].version == active ensures HasCode(s.points, target, s.points[i].code) {
        RowHasCode(s.points, active, i);
        assert s.points[i].code !in missing;
      }
    }
    if code :| code in missing {
      var i := RowOfCode(s.points, active, code);
      assert !HasCode(s.points, target, s.points[i].code);
    }
  }

  lemma RowHasCode(points: seq<Point>, version: nat, i: nat)
    requires i < |points| && points[i].version == version
    ensures HasCode(points, version, points[i].code)
  {
    assert Codes(points, version, points[i].code, i);
  }

  lemma RowOfCode(points: seq<Point>, version: nat, code: string) returns (i: nat)
    requires HasCode(points, version, code)
    ensures i < |points| && points[i].version == version && points[i].code == code
  {
    var k :| Codes(points, version, code, k);
    i := k;
  }

  lemma NothingChangedIff(s: Store, active: nat, target: nat)
    requires WellFormed(s)
    ensures Compatibility(s.points, active, target).changes == {} <==> Agrees(s.points, active, target)
  {
    hide Compatibility, WellFormed;
    var changes, points := Compatibility(s.points, active, target).changes, s.points;
    if changes == {} {
      forall i, k | 0 <= i < |points| && 0 <= k < |points| && points[i].version == active && points[k].version == target
                    && points[i].code == points[k].code
        ensures points[i].masteryFloor == points[k].masteryFloor && points[i].difficultyPrior == points[k].difficultyPrior
        ensures points[i].archived == points[k].archived
      {
        var c := points[i].code;
        assert Codes(points, active, c, i) && Codes(points, target, c, k);
        ChangesAreDifferences(s, active, target, FloorChange(c, points[i].masteryFloor, points[k].masteryFloor));
        ChangesAreDifferences(s, active, target, PriorChange(c, points[i].difficultyPrior, points[k].difficultyPrior));
        ChangesAreDifferences(s, active, target, ArchivedChange(c, points[i].archived, points[k].archived));
      }
    }
    if x :| x in changes {
      ChangesAreDifferences(s, active, target, x);
    }
  }

  /** Activation over an active version goes through exactly when the target is not active itself, loses no
      code unless forced, and changes no shared point's floor, prior or archival unless confirmed. */
  lemma ActivatesIff(s: Store, target: nat, active: nat, force: bool, confirm: bool)
    requires WellFormed(s) && target < |s.versions| && active < |s.versions|
    ensures var r := Activate(s, target, Some(active), force, confirm);
            && (r.Switched? <==> s.versions[target].status != Active && (force || Covers(s.points, active, target))
                                 && (confirm || Agrees(s.points, active, target)))
            && (r.AlreadyActive? <==> s.versions[target].status == Active)
            && (r.NeedsForce? <==> s.versions[target].status != Active && !force && !Covers(s.points, active, target))
            && (forall code :: r.NeedsForce? ==>
                  (code in r.missing <==> HasCode(s.points, active, code) && !HasCode(s.points, target, code)))
            && (forall x :: r.NeedsConfirm? ==> (x in r.changes <==> Differs(s.points, active, target, x)))
  {
    hide Compatibility, WellFormed, Covers, Agrees, HasCode, Differs;
    NothingMissingIff(s, active, target);
    NothingChangedIff(s, active, target);
    forall code { MissingAndAdded(s, active, target, code); }
    forall x { ChangesAreDifferences(s, active, target, x); }
  }

  /** The switch lowers the version that was active to reviewed, raises the target and leaves the rest. */
  lemma SwitchIs(s: Store, target: nat, active: Option<nat>, force: bool, confirm: bool)
    requires target < |s.versions| && (active.Some? ==> active.value < |s.versions|)
    ensures var r := Activate(s, target, active, force, confirm);
            && (active.None? ==> (r.Switched? <==> s.versions[target].status != Active))
            && (r.Switched? ==>
                  && |r.versions| == |s.versions| && r.versions[target] == s.versions[target].(status := Active)
                  && forall i: nat | i < |s.versions| && i != target ::
                       r.versions[i] == if active == Some(i) then s.versions[i].(status := Reviewed) else s.versions[i])
  {
    hide Compatibility;
  }

  // ----- The fork, column by column ------------------------------------------------------------------

  /** All the columns a fork copies. */
  predicate SameColumns(p: Point, q: Point) {
    && q.code == p.code && q.name == p.name && q.description == p.description && q.grade == p.grade && q.semester == p.semester
    && q.chapter == p.chapter && q.levels == p.levels && q.difficultyPrior == p.difficultyPrior && q.masteryFloor == p.masteryFloor
    && q.archived == p.archived
  }

  /** The fork's points are the source's, in order, under new ids; its relations are the source's between
      the copies, as drafts; its version row is a draft of the same subject and edition. */
  lemma ForkIsCopy(s: Store, src: nat)
    requires WellFormed(s) && src < |s.versions|
    ensures var t, v := Fork(s, src), |s.versions|;
            var rows, copies := PointsOf(s.points, src), PointsOf(t.points, v);
            && t.versions == s.versions + [Version(s.versions[src].subject, None, s.versions[src].edition, s.versions[src].number + "-fork", Draft)]
            && |copies| == |rows|
            && forall i | 0 <= i < |rows| ::
                 SameColumns(rows[i], copies[i]) && copies[i].id == s.nextPoint + i && copies[i].importance == Core
  {
    hide PointsOf, Transport, IdMap;
    ForkedPoints(s, src, |s.versions|);
    var rows := PointsOf(s.points, src);
    var copies := Copies(rows, |s.versions|, s.nextPoint);
    assert forall i | 0 <= i < |rows| :: copies[i] == CopyPoint(rows[i], |s.versions|, s.nextPoint + i);
  }

  /** Carrying relations over: those with both ends mapped, each as a draft between the images. */
  lemma {:induction false} TransportIs(relations: seq<Relation>, f: map<Id, Id>, x: Relation)
    ensures x in Transport(relations, f) <==>
            exists i :: 0 <= i < |relations| && relations[i].from in f && relations[i].to in f &&
              x == Relation(f[relations[i].from], f[relations[i].to], relations[i].kind, relations[i].weight, Draft)
  {
    if relations != [] {
      var n := |relations| - 1;
      var front := relations[..n];
      TransportIs(front, f, x);
      if i :| 0 <= i < n && front[i].from in f && front[i].to in f &&
              x == Relation(f[front[i].from], f[front[i].to], front[i].kind, front[i].weight, Draft)
      {
        assert relations[i] == front[i];
      }
      if i :| 0 <= i < n && relations[i].from in f && relations[i].to in f &&
              x == Relation(f[relations[i].from], f[relations[i].to], relations[i].kind, relations[i].weight, Draft)
      {
        assert front[i] == relations[i];
      }
    }
  }
}
