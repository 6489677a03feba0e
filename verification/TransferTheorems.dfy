/** Reading back what was written out. */
module TransferTheorems {
  import opened Options
  import opened KnowledgeGraph
  import opened KnowledgeBase
  import opened GraphRenaming
  import opened Versioning
  import opened ForkTheorems
  import opened KbTransfer

  // ----- Sorting keeps the points -------------------------------------------------------------------

  lemma {:induction false} InsertHas(sorted: seq<Point>, p: Point)
    ensures forall x :: x in InsertByCode(sorted, p) <==> x in sorted || x == p
    ensures |InsertByCode(sorted, p)| == |sorted| + 1
  {
    if sorted != [] {
      assert sorted == sorted[..|sorted| - 1] + [sorted[|sorted| - 1]];
      InsertHas(sorted[..|sorted| - 1], p);
    }
  }

  /** Different ids and different codes. */
  ghost predicate Apart(points: seq<Point>) {
    DistinctIds(points) && DistinctCodes(points)
  }

  ghost predicate ApartFrom(points: seq<Point>, p: Point) {
    forall x | x in points :: x.id != p.id && x.code != p.code
  }

  lemma ApartAppend(points: seq<Point>, p: Point)
    ensures Apart(points + [p]) <==> Apart(points) && ApartFrom(points, p)
  {
    var all := points + [p];
    assert forall i | 0 <= i < |points| :: all[i] == points[i] && points[i] in points;
    assert all[|points|] == p;
  }

  lemma {:induction false} InsertApart(sorted: seq<Point>, p: Point)
    requires Apart(sorted) && ApartFrom(sorted, p)
    ensures Apart(InsertByCode(sorted, p))
  {
    hide Apart;
    if sorted == [] {
      ApartAppend([], p);
      assert [] + [p] == [p];
    } else {
      var front, last := sorted[..|sorted| - 1], sorted[|sorted| - 1];
      assert sorted == front + [last];
      ApartAppend(front, last);
      InsertApart(front, p);
      InsertHas(front, p);
      ApartAppend(InsertByCode(front, p), last);
      ApartAppend(sorted, p);
    }
  }

  lemma {:induction false} SortHas(points: seq<Point>)
    requires Apart(points)
    ensures Apart(SortByCode(points)) && |SortByCode(points)| == |points|
    ensures forall x :: x in SortByCode(points) <==> x in points
  {
    hide Apart, InsertByCode;
    if points != [] {
      var front, last := points[..|points| - 1], points[|points| - 1];
      assert points == front + [last];
      ApartAppend(front, last);
      SortHas(front);
      InsertHas(SortByCode(front), last);
      InsertApart(SortByCode(front), last);
    }
  }

  // ----- ... and puts them in order --------------------------------------------------------------------

  lemma {:induction false} CodeLessIsAsymmetric(a: string, b: string)
    ensures !(CodeLess(a, b) && CodeLess(b, a))
  {
    if a != [] && b != [] && a[0] == b[0] { CodeLessIsAsymmetric(a[1..], b[1..]); }
  }

  lemma {:induction false} CodeLessIsTotal(a: string, b: string)
    ensures CodeLess(a, b) || CodeLess(b, a) || a == b
  {
    if a != [] && b != [] && a[0] == b[0] {
      CodeLessIsTotal(a[1..], b[1..]);
      assert a == [a[0]] + a[1..] && b == [b[0]] + b[1..];
    }
  }

  lemma {:induction false} CodeLessIsTransitive(a: string, b: string, c: string)
    requires CodeLess(a, b) && CodeLess(b, c)
    ensures CodeLess(a, c)
  {
    if a != [] && b != [] && c != [] && a[0] == b[0] && b[0] == c[0] { CodeLessIsTransitive(a[1..], b[1..], c[1..]); }
  }

  /** Strictly increasing codes. */
  ghost predicate InCodeOrder(points: seq<Point>) {
    forall i, k | 0 <= i < k < |points| :: CodeLess(points[i].code, points[k].code)
  }

  lemma OrderAppend(points: seq<Point>, p: Point)
    requires InCodeOrder(points) && forall x | x in points :: CodeLess(x.code, p.code)
    ensures InCodeOrder(points + [p])
  {
    hide CodeLess;
    assert forall i | 0 <= i < |points| :: points[i] in points;
  }

  lemma {:induction false} InsertKeepsOrder(sorted: seq<Point>, p: Point)
    requires InCodeOrder(sorted) && ApartFrom(sorted, p)
    ensures InCodeOrder(InsertByCode(sorted, p))
  {
    hide CodeLess;
    if sorted != [] {
      var front, last := sorted[..|sorted| - 1], sorted[|sorted| - 1];
      assert last in sorted && sorted == front + [last];
      if CodeLess(p.code, last.code) {
        InsertKeepsOrder(front, p);
        InsertHas(front, p);
        forall x | x in InsertByCode(front, p) ensures CodeLess(x.code, last.code) {
          if x in front {
            var i :| 0 <= i < |front| && front[i] == x;
            assert sorted[i] == x;
          }
        }
        OrderAppend(InsertByCode(front, p), last);
      } else {
        CodeLessIsTotal(p.code, last.code);
        forall x | x in sorted ensures CodeLess(x.code, p.code) {
          var i :| 0 <= i < |sorted| && sorted[i] == x;
          if i < |sorted| - 1 { CodeLessIsTransitive(x.code, last.code, p.code); }
        }
        OrderAppend(sorted, p);
      }
    }
  }

  lemma {:induction false} SortSorts(points: seq<Point>)
    requires Apart(points)
    ensures InCodeOrder(SortByCode(points))
  {
    hide Apart, InsertByCode, InCodeOrder;
    if points == [] { NothingIsInOrder(); } else {
      var front, last := points[..|points| - 1], points[|points| - 1];
      assert points == front + [last];
      ApartAppend(front, last);
      SortSorts(front);
      SortHas(front);
      InsertKeepsOrder(SortByCode(front), last);
    }
  }

  lemma NothingIsInOrder()
    ensures InCodeOrder([])
  {
  }

  /** An export lists its points in strictly increasing code order, each point of the version once. */
  lemma ExportIsInCodeOrder(s: Store, version: nat)
    requires WellFormed(s) && version < |s.versions|
    ensures var docs := Export(s, version).points;
            && |docs| == |PointsOf(s.points, version)|
            && (forall i, k | 0 <= i < k < |docs| :: CodeLess(docs[i].code, docs[k].code))
            && (forall p | p in PointsOf(s.points, version) :: WritePoint(p) in docs)
  {
    hide CodeLess, Apart, SortByCode, PointsOf, CodesById, WriteRelations, WellFormed;
    var points := PointsOf(s.points, version);
    SourceIsApart(s, version);
    SortHas(points);
    SortSorts(points);
    var docs := Export(s, version).points;
    forall p | p in points ensures WritePoint(p) in docs {
      var i :| 0 <= i < |SortByCode(points)| && SortByCode(points)[i] == p;
      assert docs[i] == WritePoint(p);
    }
  }

  lemma SourceIsApart(s: Store, version: nat)
    requires WellFormed(s)
    ensures Apart(PointsOf(s.points, version))
  {
    hide WellFormed, PointsOf;
    SourceIdsDistinct(s, version);
    SourceCodesDistinct(s, version);
  }

  // ----- From ids to codes to ids -----------------------------------------------------------------

  lemma {:induction false} CodesByIdFinds(points: seq<Point>)
    requires DistinctIds(points)
    ensures forall i | 0 <= i < |points| :: points[i].id in CodesById(points) && CodesById(points)[points[i].id] == points[i].code
    ensures CodesById(points).Keys == IdsOf(points)
  {
    hide IdsOf;
    if points == [] { NoIds(); } else {
      var n := |points| - 1;
      CodesByIdFinds(points[..n]);
      assert forall i | 0 <= i < n :: points[..n][i] == points[i];
      LastId(points);
    }
  }

  lemma NoIds()
    ensures IdsOf([]) == {}
  {
  }

  lemma LastId(points: seq<Point>)
    requires points != []
    ensures IdsOf(points) == IdsOf(points[..|points| - 1]) + {points[|points| - 1].id}
  {
    var n := |points| - 1;
    assert forall i | 0 <= i < n :: points[..n][i] == points[i];
  }

  ghost predicate DocDistinct(points: seq<DocPoint>) {
    forall i, k | 0 <= i < k < |points| :: points[i].code != points[k].code
  }

  lemma {:induction false} CodeMapNumbers(points: seq<DocPoint>, next: Id)
    requires DocDistinct(points)
    ensures forall i | 0 <= i < |points| :: points[i].code in CodeMap(points, next) && CodeMap(points, next)[points[i].code] == next + i
  {
    if points != [] {
      var n := |points| - 1;
      CodeMapNumbers(points[..n], next);
      assert forall i | 0 <= i < n :: points[..n][i] == points[i];
    }
  }

  /** Going through codes is the renaming that numbers the points in order. */
  ghost predicate Composes(codes: map<Id, string>, ids: map<string, Id>, f: map<Id, Id>) {
    && codes.Keys == f.Keys
    && forall id | id in f :: codes[id] in ids && ids[codes[id]] == f[id]
  }

  lemma CodesCompose(points: seq<Point>, next: Id)
    requires Apart(points)
    ensures Composes(CodesById(points), CodeMap(WritePoints(points), next), IdMap(points, next))
  {
    hide CodesById, CodeMap, IdMap;
    var codes, docs, f := CodesById(points), WritePoints(points), IdMap(points, next);
    var ids := CodeMap(docs, next);
    CodesByIdFinds(points);
    CodeMapNumbers(docs, next);
    IdMapNumbers(points, next);
    NumbersDomain(points, next, f);
    forall id | id in f ensures codes[id] in ids && ids[codes[id]] == f[id] {
      var i :| 0 <= i < |points| && points[i].id == id;
      assert docs[i].code == points[i].code;
    }
  }

  // ----- Relations --------------------------------------------------------------------------------

  lemma KindRoundTrip(k: Kind)
    ensures KindOf(KindName(k)) == Some(k)
  {
  }

  /** Every relation between the named points has a weight the loader accepts. */
  ghost predicate WeightsFit(relations: seq<Relation>, f: map<Id, Id>) {
    forall i | 0 <= i < |relations| && relations[i].from in f && relations[i].to in f :: 0.0 <= relations[i].weight <= 1.0
  }

  lemma WeightsStep(front: seq<Relation>, r: Relation, f: map<Id, Id>)
    ensures WeightsFit(front + [r], f) <==> WeightsFit(front, f) && (r.from in f && r.to in f ==> 0.0 <= r.weight <= 1.0)
  {
    var all := front + [r];
    assert all[|front|] == r;
    assert forall i | 0 <= i < |front| :: front[i] == all[i];
  }

  lemma ReadStep(written: seq<DocRelation>, d: DocRelation, ids: map<string, Id>)
    ensures var front := ReadRelations(written, ids);
            ReadRelations(written + [d], ids) ==
            if front.Broken? then front
            else if !ValidRelation(d, ids) then Broken(d)
            else ReadAll(front.relations + [Relation(ids[d.from], ids[d.to], KindOf(d.kind).value, d.weight, Draft)])
  {
    hide KindOf, ValidRelation;
    assert (written + [d])[..|written|] == written;
  }

  /** One relation between named points, written and read. */
  lemma OneRoundTrip(r: Relation, codes: map<Id, string>, ids: map<string, Id>, f: map<Id, Id>)
    requires Composes(codes, ids, f) && r.from in f && r.to in f
    ensures var d := DocRelation(codes[r.from], codes[r.to], KindName(r.kind), r.weight);
            && (ValidRelation(d, ids) <==> 0.0 <= r.weight <= 1.0)
            && (ValidRelation(d, ids) ==>
                  Relation(ids[d.from], ids[d.to], KindOf(d.kind).value, d.weight, Draft) == Relation(f[r.from], f[r.to], r.kind, r.weight, Draft))
  {
    hide KindOf, KindName;
    KindRoundTrip(r.kind);
  }

  /** Relations written out by code and read back by code are the transported relations, unless a
      weight is out of range. */
  lemma {:induction false} RelationsRoundTrip(relations: seq<Relation>, codes: map<Id, string>, ids: map<string, Id>, f: map<Id, Id>)
    requires Composes(codes, ids, f)
    ensures var read := ReadRelations(WriteRelations(relations, codes), ids);
            && (read.ReadAll? <==> WeightsFit(relations, f))
            && (read.ReadAll? ==> read.relations == Transport(relations, f))
  {
    hide KindOf, KindName, WeightsFit, ValidRelation, ReadRelations;
    if relations == [] {
      EmptyRoundTrip(ids, f);
    } else {
      var front, r := relations[..|relations| - 1], relations[|relations| - 1];
      assert relations == front + [r];
      RelationsRoundTrip(front, codes, ids, f);
      WeightsStep(front, r, f);
      if r.from in f && r.to in f {
        OneRoundTrip(r, codes, ids, f);
        ReadStep(WriteRelations(front, codes), DocRelation(codes[r.from], codes[r.to], KindName(r.kind), r.weight), ids);
      }
    }
  }

  lemma EmptyRoundTrip(ids: map<string, Id>, f: map<Id, Id>)
    ensures ReadRelations([], ids) == ReadAll([]) && WeightsFit([], f)
  {
  }

  // ----- Round trip into another store -------------------------------------------------------------

  ghost predicate LevelsFit(points: seq<Point>) {
    forall i | 0 <= i < |points| :: forall k | 0 <= k < |points[i].levels| :: points[i].levels[k] in ["识记", "理解", "应用", "综合"]
  }

  lemma WrittenPointsAreValid(points: seq<Point>)
    ensures (forall i | 0 <= i < |points| :: ValidPoint(WritePoints(points)[i])) <==> LevelsFit(points)
  {
    assert forall i | 0 <= i < |points| :: WritePoints(points)[i].levels == points[i].levels;
    assert forall i | 0 <= i < |points| :: WritePoints(points)[i].importance == None;
  }

  /** Points read back are the written ones under new ids, with default importance. */
  lemma ReadBack(points: seq<Point>, version: nat, next: Id)
    requires LevelsFit(points)
    ensures (forall i | 0 <= i < |points| :: ValidPoint(WritePoints(points)[i]))
    ensures ReadPoints(WritePoints(points), version, next) == Copies(points, version, next)
  {
    hide ValidLevel, LevelsFit;
    WrittenPointsAreValid(points);
    var docs := WritePoints(points);
    forall i | 0 <= i < |points| ensures ReadPoint(docs[i], version, next + i) == CopyPoint(points[i], version, next + i) {
      assert docs[i] == WritePoint(points[i]);
    }
  }

  lemma NothingRepeats(points: seq<Point>)
    requires DistinctCodes(points)
    ensures !RepeatsCode(WritePoints(points)) && DocDistinct(WritePoints(points))
  {
  }

  function Rows(s: Store, version: nat): seq<Point> {
    SortByCode(PointsOf(s.points, version))
  }

  function TransferMap(s: Store, version: nat, next: Id): map<Id, Id> {
    IdMap(Rows(s, version), next)
  }

  /** The loader takes an exported version, into a store that does not have it yet, exactly when its
      levels are known ones and its weights lie between 0 and 1; the new version then holds the same
      points in strictly increasing code order under new ids with default importance, and the
      relations moved over. */
  lemma ImportOfExportIff(s: Store, version: nat, t: Store)
    requires WellFormed(s) && version < |s.versions| && FindSame(t, 0, Export(s, version)) == None
    ensures var rows, f, v := Rows(s, version), TransferMap(s, version, t.nextPoint), s.versions[version];
            var r := Import(t, Export(s, version));
            && InCodeOrder(rows) && (forall p :: p in rows <==> p in PointsOf(s.points, version))
            && (r.Imported? <==> LevelsFit(rows) && WeightsFit(s.relations, f))
            && (r.Imported? ==> r.store == Store(t.versions + [Version(v.subject, None, v.edition, v.number, v.status)],
                                                 t.points + Copies(rows, |t.versions|, t.nextPoint),
                                                 t.relations + Transport(s.relations, f),
                                                 t.nextPoint + |rows|))
  {
    hide SortByCode, CodesById, CodeMap, IdMap, Transport, ReadRelations, WriteRelations, FindSame, WellFormed, LevelsFit, WeightsFit, ValidPoint, FirstInvalid, RepeatsCode, ReadPoints, Apart, PointsOf, InCodeOrder;
    var rows, d := Rows(s, version), Export(s, version);
    SourceIsApart(s, version);
    SortHas(PointsOf(s.points, version));
    SortSorts(PointsOf(s.points, version));
    ApartParts(rows);
    NothingRepeats(rows);
    CodesCompose(rows, t.nextPoint);
    RelationsRoundTrip(s.relations, CodesById(rows), CodeMap(d.points, t.nextPoint), TransferMap(s, version, t.nextPoint));
    NoneInvalid(d.points);
    WrittenPointsAreValid(rows);
    if LevelsFit(rows) { ReadBack(rows, |t.versions|, t.nextPoint); }
  }

  lemma ApartParts(points: seq<Point>)
    requires Apart(points)
    ensures DistinctIds(points) && DistinctCodes(points)
  {
  }

  /** Prerequisite chains and descendants survive the round trip, renamed. */
  lemma RoundTripKeepsChains(s: Store, version: nat, t: Store, k: Id, maxDepth: int)
    requires WellFormed(s) && WellFormed(t) && version < |s.versions| && FindSame(t, 0, Export(s, version)) == None
    requires Import(t, Export(s, version)).Imported? && k in GraphIds(s, version)
    ensures var u, f := Import(t, Export(s, version)).store, TransferMap(s, version, t.nextPoint);
            && k in f
            && Chain(PrereqMap(u.relations, GraphIds(u, |t.versions|)), f[k], maxDepth) ==
               RenameHits(Chain(PrereqMap(s.relations, GraphIds(s, version)), k, maxDepth), f)
            && Chain(SuccMap(u.relations, GraphIds(u, |t.versions|)), f[k], maxDepth) ==
               RenameHits(Chain(SuccMap(s.relations, GraphIds(s, version)), k, maxDepth), f)
  {
    hide *;
    var f := TransferMap(s, version, t.nextPoint);
    ImportOfExportIff(s, version, t);
    TransferRenaming(s, version, t);
    GraphIdsAre(Import(t, Export(s, version)).store, |t.versions|);
    TransportedGraph(t.relations, s.relations, f);
    ChainRenames(PrereqMap(s.relations, f.Keys), PrereqMap(t.relations + Transport(s.relations, f), Image(f)), f, k, maxDepth);
    ChainRenames(SuccMap(s.relations, f.Keys), SuccMap(t.relations + Transport(s.relations, f), Image(f)), f, k, maxDepth);
  }

  lemma GraphIdsAre(s: Store, version: nat)
    ensures GraphIds(s, version) == IdsOf(PointsOf(s.points, version))
  {
  }

  lemma SameIds(points: seq<Point>, rows: seq<Point>)
    requires forall x :: x in rows <==> x in points
    ensures IdsOf(rows) == IdsOf(points)
  {
    forall id ensures id in IdsOf(rows) <==> id in IdsOf(points) {
      if i :| 0 <= i < |rows| && rows[i].id == id { assert rows[i] in points; }
      if i :| 0 <= i < |points| && points[i].id == id { assert points[i] in rows; }
    }
  }

  lemma TransferRenaming(s: Store, version: nat, t: Store)
    requires WellFormed(s) && WellFormed(t)
    ensures var f, rows := TransferMap(s, version, t.nextPoint), Rows(s, version);
            && Injective(f) && f.Keys == GraphIds(s, version) && Foreign(t.relations, Image(f))
            && IdsOf(PointsOf(t.points + Copies(rows, |t.versions|, t.nextPoint), |t.versions|)) == Image(f)
  {
    hide SortByCode, PointsOf, IdMap, Copies, Injective, IdsOf, Apart;
    var rows := Rows(s, version);
    SourceIsApart(s, version);
    SortHas(PointsOf(s.points, version));
    ApartParts(rows);
    IdMapIsRenaming(rows, |t.versions|, t.nextPoint);
    SameIds(PointsOf(s.points, version), rows);
    NewVersionPoints(t, rows);
  }

  lemma NewVersionPoints(t: Store, rows: seq<Point>)
    requires WellFormed(t)
    ensures PointsOf(t.points + Copies(rows, |t.versions|, t.nextPoint), |t.versions|) == Copies(rows, |t.versions|, t.nextPoint)
  {
    var copies := Copies(rows, |t.versions|, t.nextPoint);
    PointsOfAppend(t.points, copies, |t.versions|);
    PointsOfAll(copies, |t.versions|, true);
    PointsOfAll(t.points, |t.versions|, false);
  }

  // ----- Importing into the same store --------------------------------------------------------------

  lemma {:induction false} FindsFirst(s: Store, from: nat, d: Document, k: nat)
    requires from <= k < |s.versions| && Same(s, k, d)
    ensures FindSame(s, from, d).Some? && from <= FindSame(s, from, d).value <= k && Same(s, FindSame(s, from, d).value, d)
    decreases k - from
  {
    hide Same;
    if !Same(s, from, d) { FindsFirst(s, from + 1, d, k); }
  }

  lemma ExportIsSame(s: Store, version: nat)
    requires WellFormed(s) && version < |s.versions|
    ensures Same(s, version, Export(s, version))
  {
    hide SortByCode, PointsOf, Apart, WriteRelations, CodesById;
    var points, rows := PointsOf(s.points, version), Rows(s, version);
    SourceIsApart(s, version);
    SortHas(points);
    var docs := WritePoints(rows);
    forall code ensures code in StoredCodes(s.points, version) <==> code in DocCodes(docs) {
      if i :| 0 <= i < |points| && points[i].code == code {
        assert points[i] in rows;
        var k :| 0 <= k < |rows| && rows[k] == points[i];
        assert docs[k].code == code;
      }
      if k :| 0 <= k < |docs| && docs[k].code == code {
        assert rows[k].code == code && rows[k] in points;
      }
    }
  }

  /** Importing a version's own export creates nothing: an existing version of the same name and
      codes is returned. */
  lemma ReimportIsPresent(s: Store, version: nat)
    requires WellFormed(s) && version < |s.versions|
    ensures var r := Import(s, Export(s, version));
            r.Present? && r.version <= version && Same(s, r.version, Export(s, version))
  {
    hide SortByCode, PointsOf, Apart, WriteRelations, CodesById, Same, FindSame, RepeatsCode, WritePoints;
    SourceIsApart(s, version);
    SortHas(PointsOf(s.points, version));
    ApartParts(Rows(s, version));
    NothingRepeats(Rows(s, version));
    ExportIsSame(s, version);
    FindsFirst(s, 0, Export(s, version), version);
  }

  lemma {:induction false} FoundIsSame(s: Store, from: nat, d: Document)
    requires from <= |s.versions| && FindSame(s, from, d).Some?
    ensures FindSame(s, from, d).value < |s.versions| && Same(s, FindSame(s, from, d).value, d)
    decreases |s.versions| - from
  {
    hide Same;
    if !Same(s, from, d) { FoundIsSame(s, from + 1, d); }
  }

  /** The loader finds nothing to do exactly when the codes are distinct and some version has the same
      name and the same codes: changed attributes or relations under unchanged codes are not noticed,
      although the loader's description promises a new version for them. */
  lemma PresentIff(s: Store, d: Document)
    ensures Import(s, d).Present? <==>
            !RepeatsCode(d.points) && exists v: nat :: v < |s.versions| && Same(s, v, d)
  {
    hide Same, RepeatsCode, ReadRelations, FirstInvalid;
    if v: nat :| v < |s.versions| && Same(s, v, d) { FindsFirst(s, 0, d, v); }
    if FindSame(s, 0, d).Some? { FoundIsSame(s, 0, d); }
  }

  /** The document with the floor of its first point changed and all relations dropped. */
  function Edited(d: Document, floor: real): Document
    requires d.points != []
  {
    d.(points := d.points[0 := d.points[0].(masteryFloor := floor)], relations := [])
  }

  /** Such an edit of a version's own export is a different document, yet importing it changes nothing. */
  lemma EditsUnderSameCodesAreIgnored(s: Store, version: nat, floor: real)
    requires WellFormed(s) && version < |s.versions| && Export(s, version).points != []
    requires floor != Export(s, version).points[0].masteryFloor
    ensures var d := Edited(Export(s, version), floor);
            d != Export(s, version) && Import(s, d).Present?
  {
    hide SortByCode, PointsOf, Apart, WriteRelations, CodesById, FindSame, WritePoints;
    var d, d' := Export(s, version), Edited(Export(s, version), floor);
    ExportIsSame(s, version);
    ReimportIsPresent(s, version);
    PresentIff(s, d);
    SameCodes(d, d');
    PresentIff(s, d');
    assert Same(s, version, d');
    assert d'.points[0].masteryFloor == floor;
  }

  lemma SameCodes(d: Document, d': Document)
    requires |d.points| == |d'.points| && forall i | 0 <= i < |d.points| :: d'.points[i].code == d.points[i].code
    ensures DocCodes(d'.points) == DocCodes(d.points) && (RepeatsCode(d'.points) <==> RepeatsCode(d.points))
  {
    if i, k :| 0 <= i < k < |d.points| && d.points[i].code == d.points[k].code { assert d'.points[i].code == d'.points[k].code; }
    if i, k :| 0 <= i < k < |d'.points| && d'.points[i].code == d'.points[k].code { assert d.points[i].code == d.points[k].code; }
    forall c ensures c in DocCodes(d'.points) <==> c in DocCodes(d.points) {
      if i :| 0 <= i < |d.points| && d.points[i].code == c { assert d'.points[i].code == c; }
      if i :| 0 <= i < |d'.points| && d'.points[i].code == c { assert d.points[i].code == c; }
    }
  }

  /** What export and import lose: importances survive exactly when all were the default, the
      version's grade exactly when it had none. */
  lemma RoundTripKeepsImportanceIff(s: Store, version: nat, t: Store)
    requires WellFormed(s) && WellFormed(t) && version < |s.versions| && FindSame(t, 0, Export(s, version)) == None
    requires Import(t, Export(s, version)).Imported?
    ensures var u, rows := Import(t, Export(s, version)).store, Rows(s, version);
            var copies := PointsOf(u.points, |t.versions|);
            && |copies| == |rows|
            && ((forall i | 0 <= i < |rows| :: copies[i].importance == rows[i].importance) <==>
                (forall i | 0 <= i < |rows| :: rows[i].importance == Core))
            && (u.versions[|t.versions|].grade == s.versions[version].grade <==> s.versions[version].grade == None)
  {
    hide SortByCode, PointsOf, FindSame, Export, Import, WellFormed, Transport, IdMap, InCodeOrder, LevelsFit, WeightsFit;
    var rows := Rows(s, version);
    ImportOfExportIff(s, version, t);
    NewVersionPoints(t, rows);
    var copies := Copies(rows, |t.versions|, t.nextPoint);
    assert forall i | 0 <= i < |rows| :: copies[i].importance == Core;
  }

  // ----- Imports of any document -------------------------------------------------------------------------

  lemma {:induction false} CodeMapInRange(points: seq<DocPoint>, next: Id, code: string)
    requires code in CodeMap(points, next)
    ensures next <= CodeMap(points, next)[code] < next + |points|
  {
    var n := |points| - 1;
    if code != points[n].code { CodeMapInRange(points[..n], next, code); }
  }

  lemma {:induction false} ReadInRange(relations: seq<DocRelation>, ids: map<string, Id>, limit: Id, i: nat)
    requires ReadRelations(relations, ids).ReadAll? && i < |ReadRelations(relations, ids).relations|
    requires forall code | code in ids :: ids[code] < limit
    ensures var r := ReadRelations(relations, ids).relations[i]; r.from < limit && r.to < limit
  {
    hide KindOf;
    var front := relations[..|relations| - 1];
    if i < |ReadRelations(front, ids).relations| { ReadInRange(front, ids, limit, i); }
  }

  lemma ImportedParts(s: Store, d: Document)
    requires Import(s, d).Imported?
    ensures !RepeatsCode(d.points) && (forall i | 0 <= i < |d.points| :: ValidPoint(d.points[i]))
    ensures var u, read := Import(s, d).store, ReadRelations(d.relations, CodeMap(d.points, s.nextPoint));
            && read.ReadAll?
            && u == Store(s.versions + [Version(d.subject, None, d.edition, d.number, d.status)],
                          s.points + ReadPoints(d.points, |s.versions|, s.nextPoint), s.relations + read.relations, s.nextPoint + |d.points|)
  {
    hide ReadRelations, CodeMap, FindSame, ValidPoint, RepeatsCode;
    NoneInvalid(d.points);
  }

  lemma ReadPointsAreNew(points: seq<DocPoint>, version: nat, next: Id)
    requires !RepeatsCode(points) && forall i | 0 <= i < |points| :: ValidPoint(points[i])
    ensures var more := ReadPoints(points, version, next);
            && DistinctCodes(more) && |more| == |points|
            && forall i | 0 <= i < |more| :: more[i].id == next + i && more[i].version == version
  {
    hide ValidPoint;
  }

  /** Any import leaves the tables well formed, so the fork and transfer theorems apply to imported versions. */
  lemma ImportKeepsWellFormed(s: Store, d: Document)
    requires WellFormed(s) && Import(s, d).Imported?
    ensures WellFormed(Import(s, d).store)
  {
    hide Import, ReadRelations, CodeMap, ReadPoints, RepeatsCode, ValidPoint;
    ImportedParts(s, d);
    var u, ids := Import(s, d).store, CodeMap(d.points, s.nextPoint);
    ReadPointsAreNew(d.points, |s.versions|, s.nextPoint);
    var more, read := ReadPoints(d.points, |s.versions|, s.nextPoint), ReadRelations(d.relations, ids).relations;
    NewPointsKeepKeys(s.points, more, |s.versions|, s.nextPoint);
    forall code | code in ids ensures ids[code] < u.nextPoint { CodeMapInRange(d.points, s.nextPoint, code); }
    forall i | 0 <= i < |u.relations| ensures u.relations[i].from < u.nextPoint && u.relations[i].to < u.nextPoint {
      if i >= |s.relations| {
        ReadInRange(d.relations, ids, u.nextPoint, i - |s.relations|);
        assert u.relations[i] == read[i - |s.relations|];
      }
    }
  }

  /** The loader takes the document's own status: an import keeps one active version per subject
      exactly when the document is not active or its subject has no active version yet. */
  lemma ImportKeepsOneActiveIff(s: Store, d: Document)
    requires OneActive(s.versions) && Import(s, d).Imported?
    ensures OneActive(Import(s, d).store.versions) <==>
            d.status != Active || forall i | 0 <= i < |s.versions| && s.versions[i].status == Active :: s.versions[i].subject != d.subject
  {
    hide Import, ReadRelations, CodeMap, ReadPoints, RepeatsCode, ValidPoint;
    ImportedParts(s, d);
    var versions := Import(s, d).store.versions;
    assert versions[|s.versions|] == Version(d.subject, None, d.edition, d.number, d.status);
    assert forall i | 0 <= i < |s.versions| :: versions[i] == s.versions[i];
  }

  lemma ExportStatus(s: Store, version: nat)
    requires version < |s.versions|
    ensures Export(s, version).status == s.versions[version].status && Export(s, version).subject == s.versions[version].subject
  {
  }

  /** So an active version read into a store that has another active one of its subject makes two. */
  lemma ImportCanMakeTwoActive(s: Store, version: nat, t: Store, other: nat)
    requires version < |s.versions| && s.versions[version].status == Active
    requires OneActive(t.versions) && other < |t.versions| && t.versions[other].status == Active
    requires t.versions[other].subject == s.versions[version].subject && Import(t, Export(s, version)).Imported?
    ensures !OneActive(Import(t, Export(s, version)).store.versions)
  {
    hide Import, Export;
    ExportStatus(s, version);
    ImportKeepsOneActiveIff(t, Export(s, version));
  }
}
