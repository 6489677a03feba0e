/** Forking, comparing and activating versions: backend/app/kb/versioning.py and compatibility.py. */
module Versioning {
  import opened Options
  import opened KnowledgeGraph
  import opened KnowledgeBase

  /** The copied columns; importance is not among them, so it falls back to its default. */
  function CopyPoint(p: Point, version: nat, id: Id): Point {
    p.(id := id, version := version, importance := Core)
  }

  function Copies(points: seq<Point>, version: nat, next: Id): seq<Point> {
    seq(|points|, i requires 0 <= i < |points| => CopyPoint(points[i], version, next + i))
  }

  /** Source id to copied id, filled in as the copies are inserted. */
  function IdMap(points: seq<Point>, next: Id): map<Id, Id> {
    if points == [] then map[]
    else IdMap(points[..|points| - 1], next)[points[|points| - 1].id := next + |points| - 1]
  }

  function TransportStep(copied: seq<Relation>, r: Relation, f: map<Id, Id>): seq<Relation> {
    if r.from in f && r.to in f then copied + [Relation(f[r.from], f[r.to], r.kind, r.weight, Draft)] else copied
  }

  /** Relations with both ends in the source, carried over in order. */
  function Transport(relations: seq<Relation>, f: map<Id, Id>): seq<Relation> {
    if relations == [] then []
    else TransportStep(Transport(relations[..|relations| - 1], f), relations[|relations| - 1], f)
  }

  function ForkedVersion(v: Version): Version {
    Version(v.subject, None, v.edition, v.number + "-fork", Draft)
  }

  /** The fork is version `|s.versions|` of the new store. */
  function Fork(s: Store, src: nat): Store
    requires src < |s.versions|
  {
    var points := PointsOf(s.points, src);
    Store(s.versions + [ForkedVersion(s.versions[src])],
          s.points + Copies(points, |s.versions|, s.nextPoint),
          s.relations + Transport(s.relations, IdMap(points, s.nextPoint)),
          s.nextPoint + |points|)
  }

  // ----- Compatibility -------------------------------------------------------------------

  function ByCode(points: seq<Point>, version: nat): map<string, Point> {
    if points == [] then map[] else
      var last := points[|points| - 1];
      var front := ByCode(points[..|points| - 1], version);
      if last.version == version then front[last.code := last] else front
  }

  datatype Change =
    | FloorChange(code: string, oldFloor: real, newFloor: real)
    | PriorChange(code: string, oldPrior: real, newPrior: real)
    | ArchivedChange(code: string, oldArchived: bool, newArchived: bool)

  datatype Diff = Diff(missing: set<string>, added: set<string>, changes: set<Change>)

  function Compatibility(points: seq<Point>, active: nat, target: nat): Diff {
    var a, t := ByCode(points, active), ByCode(points, target);
    var shared := a.Keys * t.Keys;
    Diff(a.Keys - t.Keys, t.Keys - a.Keys,
         (set c | c in shared && a[c].masteryFloor != t[c].masteryFloor :: FloorChange(c, a[c].masteryFloor, t[c].masteryFloor))
         + (set c | c in shared && a[c].difficultyPrior != t[c].difficultyPrior ::
              PriorChange(c, a[c].difficultyPrior, t[c].difficultyPrior))
         + (set c | c in shared && a[c].archived != t[c].archived :: ArchivedChange(c, a[c].archived, t[c].archived)))
  }

  // ----- Activation ----------------------------------------------------------------------

  datatype Activation =
    | Switched(versions: seq<Version>)
    | AlreadyActive
    | NeedsForce(missing: set<string>)
    | NeedsConfirm(changes: set<Change>)

  function Activate(s: Store, target: nat, active: Option<nat>, force: bool, confirm: bool): Activation
    requires target < |s.versions| && (active.Some? ==> active.value < |s.versions|)
  {
    if s.versions[target].status == Active then AlreadyActive
    else if active.None? then Switched(s.versions[target := s.versions[target].(status := Active)])
    else
      var diff := Compatibility(s.points, active.value, target);
      if diff.missing != {} && !force then NeedsForce(diff.missing)
      else if diff.changes != {} && !confirm then NeedsConfirm(diff.changes)
      else
        var lowered := s.versions[active.value := s.versions[active.value].(status := Reviewed)];
        Switched(lowered[target := lowered[target].(status := Active)])
  }

  // ----- Well-formed tables --------------------------------------------------------------

  /** Primary keys, foreign keys and the unique (version, code) of the tables. */
  ghost predicate WellFormed(s: Store) {
    && (forall i, k | 0 <= i < k < |s.points| :: s.points[i].id != s.points[k].id)
    && (forall i, k | 0 <= i < k < |s.points| && s.points[i].version == s.points[k].version ::
          s.points[i].code != s.points[k].code)
    && (forall i | 0 <= i < |s.points| :: s.points[i].id < s.nextPoint && s.points[i].version < |s.versions|)
    && (forall i | 0 <= i < |s.relations| :: s.relations[i].from < s.nextPoint && s.relations[i].to < s.nextPoint)
  }
}
