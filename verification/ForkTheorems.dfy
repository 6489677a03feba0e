/** An unedited fork is its source under an injective renaming of ids. */
module ForkTheorems {
  import opened Options
  import opened KnowledgeGraph
  import opened KnowledgeBase
  import opened GraphRenaming
  import opened Versioning

  // ----- Points --------------------------------------------------------------------------

  lemma {:induction false} PointsOfAppend(a: seq<Point>, b: seq<Point>, version: nat)
    ensures PointsOf(a + b, version) == PointsOf(a, version) + PointsOf(b, version)
  {
    if b == [] {
      assert a + b == a;
    } else {
      var front := b[..|b| - 1];
      assert (a + b)[..|a + b| - 1] == a + front;
      PointsOfAppend(a, front, version);
    }
  }

  lemma {:induction false} PointsOfAll(points: seq<Point>, version: nat, all: bool)
    requires forall i | 0 <= i < |points| :: points[i].version == version <==> all
    ensures PointsOf(points, version) == if all then points else []
  {
    if points != [] {
      PointsOfAll(points[..|points| - 1], version, all);
      assert points == points[..|points| - 1] + [points[|points| - 1]];
    }
  }

  /** The points of a version are rows of the table, in order. */
  lemma {:induction false} PointsOfRows(points: seq<Point>, version: nat, i: nat)
    requires i < |PointsOf(points, version)|
    ensures PointsOf(points, version)[i] in points && PointsOf(points, version)[i].version == version
  {
    var front := points[..|points| - 1];
    if i < |PointsOf(front, version)| { PointsOfRows(front, version, i); }
  }

  lemma {:induction false} PointsOfDistinct(points: seq<Point>, version: nat, i: nat, k: nat)
    requires forall a, b | 0 <= a < b < |points| :: points[a].id != points[b].id
    requires forall a, b | 0 <= a < b < |points| && points[a].version == points[b].version :: points[a].code != points[b].code
    requires i < k < |PointsOf(points, version)|
    ensures PointsOf(points, version)[i].id != PointsOf(points, version)[k].id
    ensures PointsOf(points, version)[i].code != PointsOf(points, version)[k].code
  {
    var front := points[..|points| - 1];
    if k < |PointsOf(front, version)| {
      PointsOfDistinct(front, version, i, k);
    } else {
      PointsOfRows(front, version, i);
      var a :| 0 <= a < |front| && front[a] == PointsOf(front, version)[i];
      assert points[a] == front[a];
    }
  }

  // ----- The id map ----------------------------------------------------------------------

  ghost predicate DistinctIds(points: seq<Point>) {
    forall i, k | 0 <= i < k < |points| :: points[i].id != points[k].id
  }

  ghost predicate DistinctCodes(points: seq<Point>) {
    forall i, k | 0 <= i < k < |points| :: points[i].code != points[k].code
  }

  ghost predicate Numbers(points: seq<Point>, next: Id, f: map<Id, Id>) {
    && (forall i | 0 <= i < |points| :: points[i].id in f && f[points[i].id] == next + i)
    && (forall id | id in f :: exists i :: 0 <= i < |points| && points[i].id == id)
  }

  lemma {:induction false} IdMapNumbers(points: seq<Point>, next: Id)
    requires DistinctIds(points)
    ensures Numbers(points, next, IdMap(points, next))
  {
    if points != [] {
      var n, f := |points| - 1, IdMap(points, next);
      var front := points[..n];
      IdMapNumbers(front, next);
      forall i | 0 <= i < |points| ensures points[i].id in f && f[points[i].id] == next + i {
        if i < n { assert front[i] == points[i]; }
      }
      forall id | id in f ensures exists i :: 0 <= i < |points| && points[i].id == id {
        if id != points[n].id {
          var i :| 0 <= i < |front| && front[i].id == id;
          assert points[i].id == id;
        }
      }
    }
  }

  /** The renamed ids. */
  function Image(f: map<Id, Id>): set<Id> {
    set a | a in f :: f[a]
  }

  lemma NumbersDomain(points: seq<Point>, next: Id, f: map<Id, Id>)
    requires Numbers(points, next, f)
    ensures Injective(f) && f.Keys == IdsOf(points)
  {
    forall a, b | a in f && b in f && f[a] == f[b] ensures a == b {
      var i :| 0 <= i < |points| && points[i].id == a;
      var k :| 0 <= k < |points| && points[k].id == b;
    }
  }

  lemma NumbersRange(points: seq<Point>, version: nat, next: Id, f: map<Id, Id>, id: Id)
    requires Numbers(points, next, f)
    ensures id in Image(f) <==> next <= id < next + |points|
    ensures id in IdsOf(Copies(points, version, next)) <==> next <= id < next + |points|
  {
    var copies := Copies(points, version, next);
    if id in Image(f) {
      var a :| a in f && f[a] == id;
      var i :| 0 <= i < |points| && points[i].id == a;
    }
    if next <= id < next + |points| {
      assert f[points[id - next].id] == id && copies[id - next].id == id;
    }
  }

  /** The id map renames exactly the source's ids, injectively, to exactly the copies' ids. */
  lemma IdMapIsRenaming(points: seq<Point>, version: nat, next: Id)
    requires DistinctIds(points)
    ensures var f := IdMap(points, next);
            && Injective(f) && f.Keys == IdsOf(points) && Image(f) == IdsOf(Copies(points, version, next))
            && (forall id | id in Image(f) :: next <= id < next + |points|)
  {
    hide *;
    var f := IdMap(points, next);
    IdMapNumbers(points, next);
    NumbersDomain(points, next, f);
    forall id
      ensures id in Image(f) <==> next <= id < next + |points|
      ensures id in IdsOf(Copies(points, version, next)) <==> next <= id < next + |points|
    {
      NumbersRange(points, version, next, f, id);
    }
  }

  // ----- Relations -----------------------------------------------------------------------

  /** No relation of the list lies inside the id set. */
  ghost predicate Foreign(relations: seq<Relation>, ids: set<Id>) {
    forall i | 0 <= i < |relations| :: relations[i].from !in ids
  }

  lemma {:induction false} EdgesAppend(a: seq<Relation>, b: seq<Relation>, ids: set<Id>, id: Id)
    ensures EdgesInto(a + b, ids, id) == EdgesInto(a, ids, id) + EdgesInto(b, ids, id)
    ensures EdgesOutOf(a + b, ids, id) == EdgesOutOf(a, ids, id) + EdgesOutOf(b, ids, id)
  {
    if b == [] {
      assert a + b == a;
    } else {
      assert (a + b)[..|a + b| - 1] == a + b[..|b| - 1];
      EdgesAppend(a, b[..|b| - 1], ids, id);
    }
  }

  lemma {:induction false} ForeignEdges(relations: seq<Relation>, ids: set<Id>, id: Id)
    requires Foreign(relations, ids)
    ensures EdgesInto(relations, ids, id) == [] && EdgesOutOf(relations, ids, id) == []
  {
    if relations != [] { ForeignEdges(relations[..|relations| - 1], ids, id); }
  }

  lemma {:induction false} EdgesStayInside(relations: seq<Relation>, f: map<Id, Id>, id: Id)
    ensures EdgesIn(EdgesInto(relations, f.Keys, id), f) && EdgesIn(EdgesOutOf(relations, f.Keys, id), f)
  {
    if relations != [] { EdgesStayInside(relations[..|relations| - 1], f, id); }
  }

  lemma RenameAppend(edges: seq<Edge>, e: Edge, f: map<Id, Id>)
    ensures RenameEdges(edges + [e], f) == RenameEdges(edges, f) + [Edge(Rename(f, e.to), e.weight)]
  {
  }

  lemma {:induction false} TransportEdges(relations: seq<Relation>, f: map<Id, Id>, id: Id)
    requires Injective(f) && id in f
    ensures EdgesInto(Transport(relations, f), Image(f), f[id]) == RenameEdges(EdgesInto(relations, f.Keys, id), f)
    ensures EdgesOutOf(Transport(relations, f), Image(f), f[id]) == RenameEdges(EdgesOutOf(relations, f.Keys, id), f)
  {
    if relations != [] {
      var front, r := relations[..|relations| - 1], relations[|relations| - 1];
      TransportEdges(front, f, id);
      RenameAppend(EdgesInto(front, f.Keys, id), Edge(r.from, r.weight), f);
      RenameAppend(EdgesOutOf(front, f.Keys, id), Edge(r.to, r.weight), f);
      if r.from in f && r.to in f {
        var copied := Transport(front, f);
        var image := Relation(f[r.from], f[r.to], r.kind, r.weight, Draft);
        assert Transport(relations, f) == copied + [image];
        assert (copied + [image])[..|copied|] == copied;
      }
    }
  }

  lemma {:induction false} TransportLandsInside(relations: seq<Relation>, f: map<Id, Id>, i: nat)
    requires i < |Transport(relations, f)|
    ensures Transport(relations, f)[i].from in Image(f) && Transport(relations, f)[i].to in Image(f)
  {
    var front := relations[..|relations| - 1];
    if i < |Transport(front, f)| { TransportLandsInside(front, f, i); }
  }

  lemma TransportedEdges(table: seq<Relation>, relations: seq<Relation>, f: map<Id, Id>, id: Id)
    requires Injective(f) && Foreign(table, Image(f)) && id in f
    ensures var all := table + Transport(relations, f);
            && EdgesIn(EdgesInto(relations, f.Keys, id), f) && EdgesIn(EdgesOutOf(relations, f.Keys, id), f)
            && EdgesInto(all, Image(f), f[id]) == RenameEdges(EdgesInto(relations, f.Keys, id), f)
            && EdgesOutOf(all, Image(f), f[id]) == RenameEdges(EdgesOutOf(relations, f.Keys, id), f)
  {
    hide *;
    EdgesStayInside(relations, f, id);
    EdgesAppend(table, Transport(relations, f), Image(f), f[id]);
    ForeignEdges(table, Image(f), f[id]);
    TransportEdges(relations, f, id);
  }

  /** Appending transported relations to a table that knows nothing of the new ids makes the
      graph on the new ids the renamed graph, in both directions. */
  lemma TransportedGraph(table: seq<Relation>, relations: seq<Relation>, f: map<Id, Id>)
    requires Injective(f) && Foreign(table, Image(f))
    ensures Renames(PrereqMap(relations, f.Keys), PrereqMap(table + Transport(relations, f), Image(f)), f)
    ensures Renames(SuccMap(relations, f.Keys), SuccMap(table + Transport(relations, f), Image(f)), f)
  {
    hide EdgesInto, EdgesOutOf, RenameEdges, EdgesIn, Injective, Transport, Foreign;
    forall id | id in f {
      TransportedEdges(table, relations, f, id);
    }
  }

  // ----- The fork ------------------------------------------------------------------------

  function GraphIds(s: Store, version: nat): set<Id> {
    IdsOf(PointsOf(s.points, version))
  }

  function ForkMap(s: Store, src: nat): map<Id, Id> {
    IdMap(PointsOf(s.points, src), s.nextPoint)
  }

  lemma SourceIdsDistinct(s: Store, src: nat)
    requires WellFormed(s)
    ensures DistinctIds(PointsOf(s.points, src))
  {
    forall i, k | 0 <= i < k < |PointsOf(s.points, src)|
      ensures PointsOf(s.points, src)[i].id != PointsOf(s.points, src)[k].id
    {
      PointsOfDistinct(s.points, src, i, k);
    }
  }

  /** The points of every version after a fork: copies in the new one, nothing new in the others. */
  lemma ForkedPoints(s: Store, src: nat, version: nat)
    requires WellFormed(s) && src < |s.versions|
    ensures PointsOf(Fork(s, src).points, version) ==
            if version == |s.versions| then Copies(PointsOf(s.points, src), version, s.nextPoint)
            else PointsOf(s.points, version)
  {
    var n := |s.versions|;
    var copies := Copies(PointsOf(s.points, src), n, s.nextPoint);
    PointsOfAppend(s.points, copies, version);
    PointsOfAll(copies, version, version == n);
    if version == n { PointsOfAll(s.points, n, false); }
  }

  lemma ForkRenaming(s: Store, src: nat)
    requires WellFormed(s) && src < |s.versions|
    ensures var f := ForkMap(s, src);
            && Injective(f) && f.Keys == GraphIds(s, src) && Image(f) == GraphIds(Fork(s, src), |s.versions|)
            && Foreign(s.relations, Image(f))
  {
    hide Copies, IdMap, PointsOf, IdsOf, Injective, Fork;
    SourceIdsDistinct(s, src);
    IdMapIsRenaming(PointsOf(s.points, src), |s.versions|, s.nextPoint);
    ForkedPoints(s, src, |s.versions|);
  }

  lemma ForkRelations(s: Store, src: nat)
    requires src < |s.versions|
    ensures Fork(s, src).relations == s.relations + Transport(s.relations, ForkMap(s, src))
  {
  }

  /** Prerequisite chains and descendants on the fork are those of the source, renamed. */
  lemma ForkKeepsChains(s: Store, src: nat, k: Id, maxDepth: int)
    requires WellFormed(s) && src < |s.versions| && k in GraphIds(s, src)
    ensures var t, f, v := Fork(s, src), ForkMap(s, src), |s.versions|;
            && k in f
            && Chain(PrereqMap(t.relations, GraphIds(t, v)), f[k], maxDepth) ==
               RenameHits(Chain(PrereqMap(s.relations, GraphIds(s, src)), k, maxDepth), f)
            && Chain(SuccMap(t.relations, GraphIds(t, v)), f[k], maxDepth) ==
               RenameHits(Chain(SuccMap(s.relations, GraphIds(s, src)), k, maxDepth), f)
  {
    hide *;
    var f := ForkMap(s, src);
    ForkRenaming(s, src);
    ForkRelations(s, src);
    TransportedGraph(s.relations, s.relations, f);
    ChainRenames(PrereqMap(s.relations, f.Keys), PrereqMap(s.relations + Transport(s.relations, f), Image(f)), f, k, maxDepth);
    ChainRenames(SuccMap(s.relations, f.Keys), SuccMap(s.relations + Transport(s.relations, f), Image(f)), f, k, maxDepth);
  }

  /** Forking disturbs no existing version: its points and its graph are what they were. */
  lemma ForkLeavesOthersAlone(s: Store, src: nat, version: nat)
    requires WellFormed(s) && src < |s.versions| && version < |s.versions|
    ensures var t, ids := Fork(s, src), GraphIds(s, version);
            && t.versions[version] == s.versions[version] && PointsOf(t.points, version) == PointsOf(s.points, version)
            && PrereqMap(t.relations, ids) == PrereqMap(s.relations, ids)
            && SuccMap(t.relations, ids) == SuccMap(s.relations, ids)
  {
    var t, ids, f := Fork(s, src), GraphIds(s, version), ForkMap(s, src);
    ForkedPoints(s, src, version);
    OldIdsAreSmall(s, version);
    ForkRenaming(s, src);
    SourceIdsDistinct(s, src);
    IdMapIsRenaming(PointsOf(s.points, src), |s.versions|, s.nextPoint);
    forall i | 0 <= i < |Transport(s.relations, f)| ensures Transport(s.relations, f)[i].from !in ids {
      TransportLandsInside(s.relations, f, i);
    }
    hide Transport, EdgesInto, EdgesOutOf, IdMap, PointsOf;
    forall id
      ensures EdgesInto(t.relations, ids, id) == EdgesInto(s.relations, ids, id)
      ensures EdgesOutOf(t.relations, ids, id) == EdgesOutOf(s.relations, ids, id)
    {
      EdgesAppend(s.relations, Transport(s.relations, f), ids, id);
      ForeignEdges(Transport(s.relations, f), ids, id);
    }
  }

  lemma OldIdsAreSmall(s: Store, version: nat)
    requires WellFormed(s)
    ensures forall id | id in GraphIds(s, version) :: id < s.nextPoint
  {
    forall id | id in GraphIds(s, version) ensures id < s.nextPoint {
      var i :| 0 <= i < |PointsOf(s.points, version)| && PointsOf(s.points, version)[i].id == id;
      PointsOfRows(s.points, version, i);
    }
  }

  // ----- Comparing and activating ---------------------------------------------------------

  lemma {:induction false} ByCodeFinds(points: seq<Point>, version: nat, code: string)
    ensures code in ByCode(points, version) ==>
              ByCode(points, version)[code] in PointsOf(points, version) && ByCode(points, version)[code].code == code
    ensures (exists i :: 0 <= i < |PointsOf(points, version)| && PointsOf(points, version)[i].code == code) ==>
              code in ByCode(points, version)
  {
    if points != [] {
      var front, last := points[..|points| - 1], points[|points| - 1];
      ByCodeFinds(front, version, code);
      var rows := PointsOf(points, version);
      if i :| 0 <= i < |rows| && rows[i].code == code {
        if i < |PointsOf(front, version)| { assert PointsOf(front, version)[i] == rows[i]; }
      }
    }
  }

  /** With unique codes, a lookup by code is the point itself. */
  lemma ByCodeIsPoint(points: seq<Point>, version: nat, i: nat)
    requires i < |PointsOf(points, version)|
    requires DistinctCodes(PointsOf(points, version))
    ensures var p := PointsOf(points, version)[i];
            p.code in ByCode(points, version) && ByCode(points, version)[p.code] == p
  {
    ByCodeFinds(points, version, PointsOf(points, version)[i].code);
  }

  lemma SourceCodesDistinct(s: Store, src: nat)
    requires WellFormed(s)
    ensures DistinctCodes(PointsOf(s.points, src))
  {
    var rows := PointsOf(s.points, src);
    forall a, b | 0 <= a < b < |rows| ensures rows[a].code != rows[b].code {
      PointsOfDistinct(s.points, src, a, b);
    }
  }

  /** Where one version's points are copies of another's, their codes mean the same. */
  lemma CopiesKeepCodes(points: seq<Point>, src: nat, rows: seq<Point>, version: nat, next: Id, code: string)
    requires rows == PointsOf(points, src) && DistinctCodes(rows)
    requires PointsOf(points, version) == Copies(rows, version, next)
    ensures var a, b := ByCode(points, src), ByCode(points, version);
            && (code in a <==> code in b)
            && (code in a ==> b[code] == CopyPoint(a[code], version, b[code].id))
  {
    hide ByCode, PointsOf;
    ByCodeFinds(points, src, code);
    ByCodeFinds(points, version, code);
    var copies := Copies(rows, version, next);
    assert forall i | 0 <= i < |rows| :: copies[i].code == rows[i].code;
    if i :| 0 <= i < |rows| && rows[i].code == code {
      ByCodeIsPoint(points, src, i);
      ByCodeIsPoint(points, version, i);
      assert copies[i] == CopyPoint(rows[i], version, next + i);
    }
  }

  /** A code means the same in the fork as in its source, importance aside. */
  lemma ForkKeepsCodes(s: Store, src: nat, code: string)
    requires WellFormed(s) && src < |s.versions|
    ensures var t, v := Fork(s, src), |s.versions|;
            var a, b := ByCode(t.points, src), ByCode(t.points, v);
            && (code in a <==> code in b)
            && (code in a ==> b[code] == CopyPoint(a[code], v, b[code].id))
  {
    hide *;
    ForkedPoints(s, src, src);
    ForkedPoints(s, src, |s.versions|);
    SourceCodesDistinct(s, src);
    CopiesKeepCodes(Fork(s, src).points, src, PointsOf(s.points, src), |s.versions|, s.nextPoint, code);
  }

  /** An unedited fork differs from its source in nothing the comparison looks at. */
  lemma ForkIsCompatible(s: Store, src: nat)
    requires WellFormed(s) && src < |s.versions|
    ensures Compatibility(Fork(s, src).points, src, |s.versions|) == Diff({}, {}, {})
  {
    hide Fork, ByCode;
    var a, b := ByCode(Fork(s, src).points, src), ByCode(Fork(s, src).points, |s.versions|);
    forall code
      ensures code in a <==> code in b
      ensures code in a ==> b[code].masteryFloor == a[code].masteryFloor && b[code].archived == a[code].archived
      ensures code in a ==> b[code].difficultyPrior == a[code].difficultyPrior
    {
      ForkKeepsCodes(s, src, code);
    }
  }

  /** So activating it over its source asks for neither force nor confirm, and swaps just the two. */
  lemma ForkActivatesFreely(s: Store, src: nat)
    requires WellFormed(s) && src < |s.versions| && s.versions[src].status == Active
    ensures var t, v := Fork(s, src), |s.versions|;
            var r := Activate(t, v, Some(src), false, false);
            && r.Switched? && |r.versions| == |t.versions|
            && r.versions[v] == t.versions[v].(status := Active) && r.versions[src] == t.versions[src].(status := Reviewed)
            && forall i | 0 <= i < |t.versions| && i != v && i != src :: r.versions[i] == t.versions[i]
  {
    hide Compatibility;
    ForkIsCompatible(s, src);
  }

  ghost predicate OneActive(versions: seq<Version>) {
    forall i, k | 0 <= i < k < |versions| && versions[i].status == Active && versions[k].status == Active ::
      versions[i].subject != versions[k].subject
  }

  /** Activating against the subject's active version keeps at most one active version per subject. */
  lemma ActivationKeepsOneActive(s: Store, target: nat, active: Option<nat>, force: bool, confirm: bool)
    requires OneActive(s.versions) && target < |s.versions| && (active.Some? ==> active.value < |s.versions|)
    requires forall i: nat | i < |s.versions| && s.versions[i].status == Active && s.versions[i].subject == s.versions[target].subject ::
               active == Some(i)
    ensures var r := Activate(s, target, active, force, confirm);
            r.Switched? ==> OneActive(r.versions) && r.versions[target].status == Active
  {
  }

  /** What the fork loses: it keeps every point's importance exactly when every point had the
      default, and the version's grade exactly when it had none. */
  lemma ForkKeepsImportanceIff(s: Store, src: nat)
    requires WellFormed(s) && src < |s.versions|
    ensures var rows, copies := PointsOf(s.points, src), PointsOf(Fork(s, src).points, |s.versions|);
            && |copies| == |rows|
            && ((forall i | 0 <= i < |rows| :: copies[i].importance == rows[i].importance) <==>
                (forall i | 0 <= i < |rows| :: rows[i].importance == Core))
            && (Fork(s, src).versions[|s.versions|].grade == s.versions[src].grade <==> s.versions[src].grade == None)
  {
    hide PointsOf, Transport, IdMap;
    ForkedPoints(s, src, |s.versions|);
    var rows, copies := PointsOf(s.points, src), PointsOf(Fork(s, src).points, |s.versions|);
    assert forall i | 0 <= i < |rows| :: copies[i].importance == Core;
  }

  /** Unique ids, and unique codes within a version. */
  ghost predicate Keyed(points: seq<Point>) {
    && DistinctIds(points)
    && forall i, k | 0 <= i < k < |points| && points[i].version == points[k].version :: points[i].code != points[k].code
  }

  /** Appending points of a new version, numbered from the next id, keeps the keys. */
  lemma NewPointsKeepKeys(points: seq<Point>, more: seq<Point>, version: nat, next: Id)
    requires Keyed(points) && forall i | 0 <= i < |points| :: points[i].id < next && points[i].version < version
    requires DistinctCodes(more) && forall i | 0 <= i < |more| :: more[i].id == next + i && more[i].version == version
    ensures Keyed(points + more)
  {
    var n, all := |points|, points + more;
    assert forall i | 0 <= i < n :: all[i] == points[i];
    assert forall i | n <= i < |all| :: all[i] == more[i - n];
    forall i, k | 0 <= i < k < |all| && all[i].version == all[k].version ensures all[i].code != all[k].code {
      if n <= i {
        assert more[i - n].code != more[k - n].code;
      }
    }
  }

  lemma CopiesKeepKeys(points: seq<Point>, rows: seq<Point>, version: nat, next: Id)
    requires Keyed(points) && forall i | 0 <= i < |points| :: points[i].id < next && points[i].version < version
    requires DistinctCodes(rows)
    ensures Keyed(points + Copies(rows, version, next))
  {
    hide Keyed;
    var copies := Copies(rows, version, next);
    assert forall i | 0 <= i < |rows| :: copies[i] == CopyPoint(rows[i], version, next + i);
    NewPointsKeepKeys(points, copies, version, next);
  }

  lemma ForkedRelationsInRange(s: Store, src: nat, i: nat)
    requires WellFormed(s) && src < |s.versions|
    requires i < |Transport(s.relations, ForkMap(s, src))|
    ensures var r, next := Transport(s.relations, ForkMap(s, src))[i], s.nextPoint + |PointsOf(s.points, src)|;
            r.from < next && r.to < next
  {
    hide Transport, PointsOf, IdMap, WellFormed, Injective;
    SourceIdsDistinct(s, src);
    IdMapIsRenaming(PointsOf(s.points, src), |s.versions|, s.nextPoint);
    TransportLandsInside(s.relations, ForkMap(s, src), i);
  }

  /** A fork leaves the tables well formed, so everything here holds of forks of forks. */
  lemma ForkKeepsWellFormed(s: Store, src: nat)
    requires WellFormed(s) && src < |s.versions|
    ensures WellFormed(Fork(s, src))
  {
    hide PointsOf, Transport, IdMap;
    SourceCodesDistinct(s, src);
    CopiesKeepKeys(s.points, PointsOf(s.points, src), |s.versions|, s.nextPoint);
    var t, moved := Fork(s, src), Transport(s.relations, ForkMap(s, src));
    assert Keyed(t.points);
    forall i | 0 <= i < |t.relations| ensures t.relations[i].from < t.nextPoint && t.relations[i].to < t.nextPoint {
      if i >= |s.relations| {
        ForkedRelationsInRange(s, src, i - |s.relations|);
        assert t.relations[i] == moved[i - |s.relations|];
      }
    }
  }
}
