/** Which documents the loader takes, and what it makes of them, said on the document itself. */
module ImportTheorems {
  import opened Options
  import opened KnowledgeGraph
  import opened KnowledgeBase
  import opened Versioning
  import opened ForkTheorems
  import opened KbTransfer
  import opened TransferTheorems
  import opened Comparison

  // ----- Codes ----------------------------------------------------------------------------------

  /** Codes are compared character by character: the first difference decides, and a prefix comes first. */
  lemma {:induction false} CodeLessIff(a: string, b: string)
    ensures CodeLess(a, b) <==>
            exists n :: 0 <= n <= |a| && n < |b| && a[..n] == b[..n] && (n == |a| || a[n] < b[n])
  {
    if a == [] || b == [] {
      if b != [] { assert a[..0] == b[..0]; }
    } else if a[0] != b[0] {
      if a[0] < b[0] { assert a[..0] == b[..0]; }
      forall n | 0 < n <= |a| && n < |b| ensures a[..n] != b[..n] { assert a[..n][0] != b[..n][0]; }
    } else {
      var a', b' := a[1..], b[1..];
      CodeLessIff(a', b');
      if n :| 0 <= n <= |a'| && n < |b'| && a'[..n] == b'[..n] && (n == |a'| || a'[n] < b'[n]) {
        assert a[..n + 1] == [a[0]] + a'[..n] && b[..n + 1] == [b[0]] + b'[..n];
      }
      if n :| 0 <= n <= |a| && n < |b| && a[..n] == b[..n] && (n == |a| || a[n] < b[n]) {
        if n > 0 { assert a'[..n - 1] == a[..n][1..] && b'[..n - 1] == b[..n][1..]; }
      }
    }
  }

  ghost predicate Lists(d: Document, code: string) {
    exists i :: 0 <= i < |d.points| && d.points[i].code == code
  }

  /** A version of the same subject, edition and number with exactly the document's codes. */
  ghost predicate Known(s: Store, d: Document, v: nat) {
    && v < |s.versions|
    && s.versions[v].subject == d.subject && s.versions[v].edition == d.edition && s.versions[v].number == d.number
    && forall code :: HasCode(s.points, v, code) <==> Lists(d, code)
  }

  lemma {:induction false} PointsOfHas(points: seq<Point>, version: nat, p: Point)
    ensures p in PointsOf(points, version) <==> p in points && p.version == version
  {
    if points != [] {
      PointsOfHas(points[..|points| - 1], version, p);
      assert points == points[..|points| - 1] + [points[|points| - 1]];
    }
  }

  lemma StoredIff(points: seq<Point>, version: nat, code: string)
    ensures code in StoredCodes(points, version) <==> HasCode(points, version, code)
  {
    hide PointsOf;
    var rows := PointsOf(points, version);
    if code in StoredCodes(points, version) {
      var i :| 0 <= i < |rows| && rows[i].code == code;
      PointsOfHas(points, version, rows[i]);
      var k :| 0 <= k < |points| && points[k] == rows[i];
      assert Codes(points, version, code, k);
    }
    if k :| Codes(points, version, code, k) {
      PointsOfHas(points, version, points[k]);
      assert points[k] in rows;
    }
  }

  lemma SameIff(s: Store, v: nat, d: Document)
    requires v < |s.versions|
    ensures Same(s, v, d) <==> Known(s, d, v)
  {
    hide StoredCodes, HasCode;
    forall code ensures code in StoredCodes(s.points, v) <==> HasCode(s.points, v, code) { StoredIff(s.points, v, code); }
    forall code ensures code in DocCodes(d.points) <==> Lists(d, code) {
    }
    if Known(s, d, v) { assert StoredCodes(s.points, v) == DocCodes(d.points); }
  }

  // ----- Acceptance ------------------------------------------------------------------------------

  predicate PointFits(p: DocPoint) {
    && (forall k | 0 <= k < |p.levels| :: p.levels[k] in ["识记", "理解", "应用", "综合"])
    && p.importance in [None, Some("基础"), Some("核心"), Some("拓展")]
  }

  ghost predicate RelationFits(d: Document, r: DocRelation) {
    r.kind in ["prerequisite", "contains", "confusable", "spiral"] && Lists(d, r.from) && Lists(d, r.to) && 0.0 <= r.weight <= 1.0
  }

  lemma PointFitsIff(p: DocPoint)
    ensures ValidPoint(p) <==> PointFits(p)
  {
  }

  lemma {:induction false} CodeMapHas(points: seq<DocPoint>, next: Id, code: string)
    ensures code in CodeMap(points, next) <==> exists i :: 0 <= i < |points| && points[i].code == code
  {
    if points != [] {
      CodeMapHas(points[..|points| - 1], next, code);
      assert points == points[..|points| - 1] + [points[|points| - 1]];
    }
  }

  lemma RelationFitsIff(d: Document, next: Id, r: DocRelation)
    ensures ValidRelation(r, CodeMap(d.points, next)) <==> RelationFits(d, r)
  {
    hide CodeMap;
    CodeMapHas(d.points, next, r.from);
    CodeMapHas(d.points, next, r.to);
  }

  lemma {:induction false} ReadAllIff(relations: seq<DocRelation>, ids: map<string, Id>)
    ensures ReadRelations(relations, ids).ReadAll? <==> forall i | 0 <= i < |relations| :: ValidRelation(relations[i], ids)
  {
    hide ValidRelation, KindOf;
    if relations != [] {
      ReadAllIff(relations[..|relations| - 1], ids);
      assert relations == relations[..|relations| - 1] + [relations[|relations| - 1]];
    }
  }

  ghost predicate DistinctDocCodes(d: Document) {
    forall i, k | 0 <= i < k < |d.points| :: d.points[i].code != d.points[k].code
  }

  /** A document is answered with a version already there exactly when its codes are distinct and that
      version has its name and its codes. */
  lemma PresentIffKnown(s: Store, d: Document)
    ensures Import(s, d).Present? <==> DistinctDocCodes(d) && exists v: nat :: Known(s, d, v)
    ensures Import(s, d).Present? ==> Known(s, d, Import(s, d).version)
  {
    hide Same, ReadRelations, FirstInvalid, FindSame, ReadPoints;
    PresentIff(s, d);
    forall v: nat | v < |s.versions| { SameIff(s, v, d); }
    if v: nat :| Known(s, d, v) { assert Same(s, v, d); }
    if FindSame(s, 0, d).Some? { FoundIsSame(s, 0, d); }
  }

  /** A document becomes a new version exactly when its codes are distinct and not known, every level and
      importance is one of the named ones, and every relation is of a named kind, between listed codes,
      with a weight between 0 and 1. */
  lemma ImportedIff(s: Store, d: Document)
    ensures Import(s, d).Imported? <==>
            && DistinctDocCodes(d) && !(exists v: nat :: Known(s, d, v))
            && (forall i | 0 <= i < |d.points| :: PointFits(d.points[i]))
            && (forall i | 0 <= i < |d.relations| :: RelationFits(d, d.relations[i]))
  {
    hide Same, ReadRelations, FirstInvalid, FindSame, ReadPoints, Known, ValidPoint, ValidRelation, PointFits, RelationFits, CodeMap;
    PresentIffKnown(s, d);
    NoneInvalid(d.points);
    forall p { PointFitsIff(p); }
    var ids := CodeMap(d.points, s.nextPoint);
    ReadAllIff(d.relations, ids);
    forall r ensures ValidRelation(r, ids) <==> RelationFits(d, r) { RelationFitsIff(d, s.nextPoint, r); }
  }

  // ----- What is stored ----------------------------------------------------------------------------

  function ImportanceNamed(name: Option<string>): Importance {
    match name
    case None => Core
    case Some(x) => if x == "基础" then Basic else if x == "拓展" then Extended else Core
  }

  predicate KindNamed(k: Kind, name: string) {
    match k
    case Prerequisite => name == "prerequisite"
    case Contains => name == "contains"
    case Confusable => name == "confusable"
    case Spiral => name == "spiral"
  }

  /** A point as stored: the document's columns, a new id, the named importance. */
  predicate Stores(p: DocPoint, version: nat, id: Id, q: Point) {
    && q.id == id && q.version == version && q.code == p.code && q.name == p.name && q.description == p.description
    && q.grade == p.grade && q.semester == p.semester && q.chapter == p.chapter && q.levels == p.levels
    && q.difficultyPrior == p.difficultyPrior && q.masteryFloor == p.masteryFloor && q.archived == p.archived
    && q.importance == ImportanceNamed(p.importance)
  }

  /** A relation as stored: between the ids of the points listed under its codes, as a draft. */
  ghost predicate Connects(d: Document, next: Id, r: DocRelation, x: Relation) {
    && KindNamed(x.kind, r.kind) && x.weight == r.weight && x.audit == Draft
    && exists i, k :: 0 <= i < |d.points| && 0 <= k < |d.points| && d.points[i].code == r.from && d.points[k].code == r.to
                      && x.from == next + i && x.to == next + k
  }

  lemma StoresPoint(p: DocPoint, version: nat, id: Id)
    requires ValidPoint(p)
    ensures Stores(p, version, id, ReadPoint(p, version, id))
  {
  }

  lemma KindIsNamed(name: string)
    requires KindOf(name).Some?
    ensures KindNamed(KindOf(name).value, name)
  {
  }

  lemma {:induction false} CodeMapAt(points: seq<DocPoint>, next: Id, code: string)
    requires code in CodeMap(points, next)
    ensures exists i :: 0 <= i < |points| && points[i].code == code && CodeMap(points, next)[code] == next + i
  {
    var n := |points| - 1;
    if points[n].code != code {
      CodeMapAt(points[..n], next, code);
      var i :| 0 <= i < n && points[..n][i].code == code && CodeMap(points[..n], next)[code] == next + i;
      assert points[i].code == code;
    }
  }

  lemma ConnectsRelation(d: Document, next: Id, r: DocRelation)
    requires ValidRelation(r, CodeMap(d.points, next))
    ensures var ids := CodeMap(d.points, next); Connects(d, next, r, Relation(ids[r.from], ids[r.to], KindOf(r.kind).value, r.weight, Draft))
  {
    hide CodeMap, KindOf, KindNamed;
    KindIsNamed(r.kind);
    CodeMapAt(d.points, next, r.from);
    CodeMapAt(d.points, next, r.to);
  }

  lemma {:induction false} ReadInOrder(relations: seq<DocRelation>, ids: map<string, Id>, i: nat)
    requires ReadRelations(relations, ids).ReadAll? && i < |relations|
    ensures var r, read := relations[i], ReadRelations(relations, ids).relations;
            && |read| == |relations| && ValidRelation(r, ids)
            && read[i] == Relation(ids[r.from], ids[r.to], KindOf(r.kind).value, r.weight, Draft)
  {
    hide KindOf;
    var n := |relations| - 1;
    if n > 0 { ReadInOrder(relations[..n], ids, if i < n then i else 0); }
  }

  /** The new version row, the points in document order under new ids, and the relations in document order. */
  lemma ImportedIs(s: Store, d: Document)
    requires Import(s, d).Imported?
    ensures var u, n, m := Import(s, d).store, |s.points|, |s.relations|;
            && u.versions == s.versions + [Version(d.subject, None, d.edition, d.number, d.status)]
            && |u.points| == n + |d.points| && u.points[..n] == s.points && u.nextPoint == s.nextPoint + |d.points|
            && (forall i: nat | i < |d.points| :: Stores(d.points[i], |s.versions|, s.nextPoint + i, u.points[n + i]))
            && |u.relations| == m + |d.relations| && u.relations[..m] == s.relations
            && (forall i: nat | i < |d.relations| :: Connects(d, s.nextPoint, d.relations[i], u.relations[m + i]))
  {
    hide ReadRelations, ReadPoint, Stores, Connects, ValidPoint, ValidRelation, RepeatsCode, KindOf, CodeMap, FindSame, FirstInvalid;
    ImportedParts(s, d);
    NoneInvalid(d.points);
    var u, n, m, ids := Import(s, d).store, |s.points|, |s.relations|, CodeMap(d.points, s.nextPoint);
    var read := ReadRelations(d.relations, ids).relations;
    assert u.points == s.points + ReadPoints(d.points, |s.versions|, s.nextPoint);
    forall i: nat | i < |d.points| ensures Stores(d.points[i], |s.versions|, s.nextPoint + i, u.points[n + i]) {
      StoresPoint(d.points[i], |s.versions|, s.nextPoint + i);
    }
    ReadLength(d.relations, ids);
    forall i: nat | i < |d.relations| ensures Connects(d, s.nextPoint, d.relations[i], u.relations[m + i]) {
      ReadInOrder(d.relations, ids, i);
      ConnectsRelation(d, s.nextPoint, d.relations[i]);
      assert u.relations[m + i] == read[i];
    }
  }

  lemma ReadLength(relations: seq<DocRelation>, ids: map<string, Id>)
    requires ReadRelations(relations, ids).ReadAll?
    ensures |ReadRelations(relations, ids).relations| == |relations|
  {
    hide KindOf, ValidRelation;
    if relations != [] { ReadInOrder(relations, ids, 0); }
  }
}
