/** The tables as the version commands change them. */
module KbStores {
  import opened Options
  import opened KnowledgeGraph
  import opened KnowledgeBase
  import opened Versioning
  import opened KbTransfer

  class KbStore {
    var versions: seq<Version>
    var points: seq<Point>
    var relations: seq<Relation>
    var nextPoint: Id

    function Value(): Store
      reads this
    {
      Store(versions, points, relations, nextPoint)
    }

    /** Copies the version row, its points and then the relations between them. */
    method ForkVersion(src: nat) returns (fork: nat)
      requires src < |versions|
      modifies this
      ensures fork == |old(versions)| && Value() == Fork(old(Value()), src)
    {
      fork := |versions|;
      versions := versions + [Version(versions[src].subject, None, versions[src].edition, versions[src].number + "-fork", Draft)];
      var idMap := CopyAll(src, fork);
      var rows := relations;
      var copied := [];
      for i := 0 to |rows|
        invariant copied == Transport(rows[..i], idMap)
      {
        assert rows[..i + 1][..i] == rows[..i];
        if rows[i].from in idMap && rows[i].to in idMap {
          copied := copied + [Relation(idMap[rows[i].from], idMap[rows[i].to], rows[i].kind, rows[i].weight, Draft)];
        }
      }
      assert rows[..|rows|] == rows;
      relations := relations + copied;
    }

    method CopyAll(src: nat, fork: nat) returns (idMap: map<Id, Id>)
      modifies this`points, this`nextPoint
      ensures var rows := PointsOf(old(points), src);
              && points == old(points) + Copies(rows, fork, old(nextPoint))
              && idMap == IdMap(rows, old(nextPoint)) && nextPoint == old(nextPoint) + |rows|
    {
      var rows := PointsOf(points, src);
      idMap := map[];
      for i := 0 to |rows|
        invariant points == old(points) + Copies(rows[..i], fork, old(nextPoint))
        invariant idMap == IdMap(rows[..i], old(nextPoint)) && nextPoint == old(nextPoint) + i
      {
        assert rows[..i + 1][..i] == rows[..i];
        points := points + [rows[i].(id := nextPoint, version := fork, importance := Core)];
        assert Copies(rows[..i + 1], fork, old(nextPoint)) ==
               Copies(rows[..i], fork, old(nextPoint)) + [CopyPoint(rows[i], fork, nextPoint)];
        idMap := idMap[rows[i].id := nextPoint];
        nextPoint := nextPoint + 1;
      }
      assert rows[..|rows|] == rows;
    }

    method ActivateVersion(target: nat, active: Option<nat>, force: bool, confirm: bool) returns (r: Activation)
      requires target < |versions| && (active.Some? ==> active.value < |versions|)
      modifies this`versions
      ensures r == Activate(old(Value()), target, active, force, confirm)
      ensures versions == if r.Switched? then r.versions else old(versions)
    {
      if versions[target].status == Active { return AlreadyActive; }
      if active.Some? {
        var diff := Compatibility(points, active.value, target);
        if diff.missing != {} && !force { return NeedsForce(diff.missing); }
        if diff.changes != {} && !confirm { return NeedsConfirm(diff.changes); }
        versions := versions[active.value := versions[active.value].(status := Reviewed)];
      }
      versions := versions[target := versions[target].(status := Active)];
      return Switched(versions);
    }

    /** Points in code order, then the relations between them by code. */
    method ExportVersion(version: nat) returns (d: Document)
      requires version < |versions|
      ensures d == Export(Value(), version)
    {
      hide SortByCode, PointsOf, KindName;
      var rows := SortByCode(PointsOf(points, version));
      var codes: map<Id, string> := map[];
      for i := 0 to |rows|
        invariant codes == CodesById(rows[..i])
      {
        assert rows[..i + 1][..i] == rows[..i];
        codes := codes[rows[i].id := rows[i].code];
      }
      assert rows[..|rows|] == rows;
      var written: seq<DocRelation> := [];
      for i := 0 to |relations|
        invariant written == WriteRelations(relations[..i], codes)
      {
        assert relations[..i + 1][..i] == relations[..i];
        var r := relations[i];
        if r.from in codes && r.to in codes {
          written := written + [DocRelation(codes[r.from], codes[r.to], KindName(r.kind), r.weight)];
        }
      }
      assert relations[..|relations|] == relations;
      var v := versions[version];
      d := Document(v.subject, v.edition, v.number, v.status, WritePoints(rows), written);
    }

    /** Returns a version that is there already, adds the document as a new one, or changes nothing. */
    method ImportDocument(d: Document) returns (r: Outcome)
      modifies this
      ensures r == Import(old(Value()), d)
      ensures Value() == if r.Imported? then r.store else old(Value())
    {
      hide RepeatsCode, FindSame, FirstInvalid, CodeMap, ReadRelations, ReadPoint, ValidPoint;
      if RepeatsCode(d.points) { return DuplicateCodes; }
      var same := FindVersion(Value(), d);
      if same.Some? { return Present(same.value); }
      var bad, added, ids := LoadPoints(d.points, |versions|, nextPoint);
      if bad.Some? { return BadPoint(d.points[bad.value].code); }
      var read := LoadRelations(d.relations, ids);
      if read.Broken? { return BadRelation(read.at); }
      versions := versions + [Version(d.subject, None, d.edition, d.number, d.status)];
      points, relations, nextPoint := points + added, relations + read.relations, nextPoint + |d.points|;
      r := Imported(Value());
    }
  }

  method FindVersion(s: Store, d: Document) returns (same: Option<nat>)
    ensures same == FindSame(s, 0, d)
  {
    hide Same;
    var k := 0;
    while k < |s.versions| && !Same(s, k, d)
      invariant k <= |s.versions| && FindSame(s, 0, d) == FindSame(s, k, d)
    {
      k := k + 1;
    }
    same := if k < |s.versions| then Some(k) else None;
  }

  /** Validates and numbers the points one by one, up to the first invalid one. */
  method LoadPoints(docs: seq<DocPoint>, version: nat, next: Id) returns (bad: Option<nat>, added: seq<Point>, ids: map<string, Id>)
    ensures bad == FirstInvalid(docs)
    ensures bad.Some? ==> bad.value < |docs|
    ensures bad.None? ==> ids == CodeMap(docs, next) && (forall i | 0 <= i < |docs| :: ValidPoint(docs[i]))
                          && added == ReadPoints(docs, version, next)
  {
    hide ValidPoint, ReadPoint;
    added, ids, bad := [], map[], None;
    assert docs[..0] == [];
    for i := 0 to |docs|
      invariant FirstInvalid(docs[..i]) == None && |added| == i
      invariant forall m | 0 <= m < i :: ValidPoint(docs[m]) && added[m] == ReadPoint(docs[m], version, next + m)
      invariant ids == CodeMap(docs[..i], next)
    {
      assert docs[..i + 1][..i] == docs[..i];
      if !ValidPoint(docs[i]) {
        InvalidIsFirst(docs, i);
        return Some(i), added, ids;
      }
      added, ids := added + [ReadPoint(docs[i], version, next + i)], ids[docs[i].code := next + i];
    }
    assert docs[..|docs|] == docs;
  }

  /** Validates and converts the relations one by one, up to the first broken one. */
  method LoadRelations(docs: seq<DocRelation>, ids: map<string, Id>) returns (read: Read)
    ensures read == ReadRelations(docs, ids)
  {
    hide ValidRelation, KindOf;
    var rows: seq<Relation> := [];
    assert docs[..0] == [];
    for i := 0 to |docs|
      invariant ReadRelations(docs[..i], ids) == ReadAll(rows)
    {
      assert docs[..i + 1][..i] == docs[..i];
      var d := docs[i];
      if !ValidRelation(d, ids) {
        BrokenIsFirst(docs, i, ids);
        return Broken(d);
      }
      ValidParts(d, ids);
      rows := rows + [Relation(ids[d.from], ids[d.to], KindOf(d.kind).value, d.weight, Draft)];
    }
    assert docs[..|docs|] == docs;
    read := ReadAll(rows);
  }

  lemma ValidParts(r: DocRelation, ids: map<string, Id>)
    requires ValidRelation(r, ids)
    ensures KindOf(r.kind).Some? && r.from in ids && r.to in ids
  {
  }

  lemma {:induction false} InvalidIsFirst(points: seq<DocPoint>, i: nat)
    requires i < |points| && FirstInvalid(points[..i]) == None && !ValidPoint(points[i])
    ensures FirstInvalid(points) == Some(i)
  {
    hide ValidPoint;
    var n := |points| - 1;
    if i < n {
      assert points[..n][..i] == points[..i];
      InvalidIsFirst(points[..n], i);
    }
  }

  lemma {:induction false} BrokenIsFirst(relations: seq<DocRelation>, i: nat, ids: map<string, Id>)
    requires i < |relations| && ReadRelations(relations[..i], ids).ReadAll? && !ValidRelation(relations[i], ids)
    ensures ReadRelations(relations, ids) == Broken(relations[i])
  {
    hide ValidRelation, KindOf;
    var n := |relations| - 1;
    if i < n {
      assert relations[..n][..i] == relations[..i];
      BrokenIsFirst(relations[..n], i, ids);
    }
  }
}
