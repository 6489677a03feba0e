/** Writing a version out as a document and reading documents in: backend/app/kb/versioning.py and loader.py. */
module KbTransfer {
  import opened Options
  import opened KnowledgeGraph
  import opened KnowledgeBase

  datatype DocPoint = DocPoint(code: string, name: string, description: string, grade: int, semester: int, chapter: string,
                               levels: seq<string>, difficultyPrior: real, masteryFloor: real,
                               importance: Option<string>, archived: bool)

  datatype DocRelation = DocRelation(from: string, to: string, kind: string, weight: real)

  datatype Document = Document(subject: string, edition: string, number: string, status: Status,
                               points: seq<DocPoint>, relations: seq<DocRelation>)

  function KindName(k: Kind): string {
    match k
    case Prerequisite => "prerequisite"
    case Contains => "contains"
    case Confusable => "confusable"
    case Spiral => "spiral"
  }

  function KindOf(name: string): Option<Kind> {
    if name == "prerequisite" then Some(Prerequisite)
    else if name == "contains" then Some(Contains)
    else if name == "confusable" then Some(Confusable)
    else if name == "spiral" then Some(Spiral)
    else None
  }

  // ----- Export ----------------------------------------------------------------------------------

  predicate CodeLess(a: string, b: string) {
    if b == [] then false
    else if a == [] then true
    else if a[0] != b[0] then a[0] < b[0]
    else CodeLess(a[1..], b[1..])
  }

  function InsertByCode(sorted: seq<Point>, p: Point): seq<Point> {
    if sorted == [] then [p] else
      var front, last := sorted[..|sorted| - 1], sorted[|sorted| - 1];
      if CodeLess(p.code, last.code) then InsertByCode(front, p) + [last] else sorted + [p]
  }

  function SortByCode(points: seq<Point>): seq<Point> {
    if points == [] then [] else InsertByCode(SortByCode(points[..|points| - 1]), points[|points| - 1])
  }

  /** Importance is not written out. */
  function WritePoint(p: Point): DocPoint {
    DocPoint(p.code, p.name, p.description, p.grade, p.semester, p.chapter, p.levels, p.difficultyPrior, p.masteryFloor, None, p.archived)
  }

  function WritePoints(points: seq<Point>): seq<DocPoint> {
    seq(|points|, i requires 0 <= i < |points| => WritePoint(points[i]))
  }

  function CodesById(points: seq<Point>): map<Id, string> {
    if points == [] then map[] else CodesById(points[..|points| - 1])[points[|points| - 1].id := points[|points| - 1].code]
  }

  function WriteRelations(relations: seq<Relation>, codes: map<Id, string>): seq<DocRelation> {
    if relations == [] then [] else
      var front, r := WriteRelations(relations[..|relations| - 1], codes), relations[|relations| - 1];
      if r.from in codes && r.to in codes then front + [DocRelation(codes[r.from], codes[r.to], KindName(r.kind), r.weight)] else front
  }

  function Export(s: Store, version: nat): Document
    requires version < |s.versions|
  {
    var v, points := s.versions[version], SortByCode(PointsOf(s.points, version));
    Document(v.subject, v.edition, v.number, v.status, WritePoints(points), WriteRelations(s.relations, CodesById(points)))
  }

  // ----- Import ----------------------------------------------------------------------------------

  datatype Outcome =
    | Present(version: nat)
    | Imported(store: Store)
    | DuplicateCodes
    | BadPoint(code: string)
    | BadRelation(relation: DocRelation)

  predicate ValidLevel(level: string) {
    level in ["识记", "理解", "应用", "综合"]
  }

  function ImportanceOf(name: Option<string>): Option<Importance> {
    if name == None || name == Some("核心") then Some(Core)
    else if name == Some("基础") then Some(Basic)
    else if name == Some("拓展") then Some(Extended)
    else None
  }

  predicate ValidPoint(p: DocPoint) {
    (forall i | 0 <= i < |p.levels| :: ValidLevel(p.levels[i])) && ImportanceOf(p.importance).Some?
  }

  function ReadPoint(p: DocPoint, version: nat, id: Id): Point
    requires ValidPoint(p)
  {
    Point(id, version, p.code, p.name, p.description, p.grade, p.semester, p.chapter, p.levels, p.difficultyPrior, p.masteryFloor,
          ImportanceOf(p.importance).value, p.archived)
  }

  predicate RepeatsCode(points: seq<DocPoint>) {
    exists i, k :: 0 <= i < k < |points| && points[i].code == points[k].code
  }

  function FirstInvalid(points: seq<DocPoint>): Option<nat> {
    if points == [] then None else
      var front := FirstInvalid(points[..|points| - 1]);
      if front.Some? then front else if ValidPoint(points[|points| - 1]) then None else Some(|points| - 1)
  }

  function CodeMap(points: seq<DocPoint>, next: Id): map<string, Id> {
    if points == [] then map[] else CodeMap(points[..|points| - 1], next)[points[|points| - 1].code := next + |points| - 1]
  }

  predicate ValidRelation(r: DocRelation, ids: map<string, Id>) {
    KindOf(r.kind).Some? && r.from in ids && r.to in ids && 0.0 <= r.weight <= 1.0
  }

  datatype Read = ReadAll(relations: seq<Relation>) | Broken(at: DocRelation)

  function ReadRelations(relations: seq<DocRelation>, ids: map<string, Id>): Read {
    if relations == [] then ReadAll([]) else
      var front, r := ReadRelations(relations[..|relations| - 1], ids), relations[|relations| - 1];
      if front.Broken? then front
      else if !ValidRelation(r, ids) then Broken(r)
      else ReadAll(front.relations + [Relation(ids[r.from], ids[r.to], KindOf(r.kind).value, r.weight, Draft)])
  }

  function DocCodes(points: seq<DocPoint>): set<string> {
    set i | 0 <= i < |points| :: points[i].code
  }

  function StoredCodes(points: seq<Point>, version: nat): set<string> {
    set i | 0 <= i < |PointsOf(points, version)| :: PointsOf(points, version)[i].code
  }

  /** Same name and same codes: that is all that is compared. */
  predicate Same(s: Store, version: nat, d: Document)
    requires version < |s.versions|
  {
    var v := s.versions[version];
    v.subject == d.subject && v.edition == d.edition && v.number == d.number && StoredCodes(s.points, version) == DocCodes(d.points)
  }

  /** The first of the remaining versions that is the same. */
  function FindSame(s: Store, from: nat, d: Document): Option<nat>
    requires from <= |s.versions|
    decreases |s.versions| - from
  {
    if from == |s.versions| then None
    else if Same(s, from, d) then Some(from)
    else FindSame(s, from + 1, d)
  }

  function ReadPoints(points: seq<DocPoint>, version: nat, next: Id): seq<Point>
    requires forall i | 0 <= i < |points| :: ValidPoint(points[i])
  {
    seq(|points|, i requires 0 <= i < |points| => ReadPoint(points[i], version, next + i))
  }

  lemma {:induction false} NoneInvalid(points: seq<DocPoint>)
    ensures FirstInvalid(points) == None <==> forall i | 0 <= i < |points| :: ValidPoint(points[i])
    ensures FirstInvalid(points).Some? ==> FirstInvalid(points).value < |points|
  {
    hide ValidPoint;
    if points != [] {
      var front := points[..|points| - 1];
      NoneInvalid(front);
      assert forall i | 0 <= i < |front| :: front[i] == points[i];
    }
  }

  function Import(s: Store, d: Document): Outcome {
    NoneInvalid(d.points);
    if RepeatsCode(d.points) then DuplicateCodes
    else if FindSame(s, 0, d).Some? then Present(FindSame(s, 0, d).value)
    else if FirstInvalid(d.points).Some? then BadPoint(d.points[FirstInvalid(d.points).value].code)
    else
      var version, read := |s.versions|, ReadRelations(d.relations, CodeMap(d.points, s.nextPoint));
      if read.Broken? then BadRelation(read.at)
      else Imported(Store(s.versions + [Version(d.subject, None, d.edition, d.number, d.status)],
                          s.points + ReadPoints(d.points, version, s.nextPoint),
                          s.relations + read.relations,
                          s.nextPoint + |d.points|))
  }
}
