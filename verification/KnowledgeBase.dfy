/**
 The tables behind a knowledge graph and the graph read from them: backend/app/models.py and the
 constructor of backend/app/kb/graph.py. A query without ORDER BY returns rows in table order.
 */
module KnowledgeBase {
  import opened Options
  import opened KnowledgeGraph

  datatype Kind = Prerequisite | Contains | Confusable | Spiral
  datatype Importance = Basic | Core | Extended
  datatype Status = Draft | Reviewed | Active

  datatype Point = Point(
    id: Id,
    version: nat,
    code: string,
    name: string,
    description: string,
    grade: int,
    semester: int,
    chapter: string,
    levels: seq<string>,
    difficultyPrior: real,
    masteryFloor: real,
    importance: Importance,
    archived: bool)

  datatype Relation = Relation(from: Id, to: Id, kind: Kind, weight: real, audit: Status)

  datatype Version = Version(subject: string, grade: Option<int>, edition: string, number: string, status: Status)

  /** A version is named by its position; point ids are handed out from `nextPoint` upwards. */
  datatype Store = Store(versions: seq<Version>, points: seq<Point>, relations: seq<Relation>, nextPoint: Id)

  function PointsOf(points: seq<Point>, version: nat): seq<Point> {
    if points == [] then [] else
      var last := points[|points| - 1];
      PointsOf(points[..|points| - 1], version) + if last.version == version then [last] else []
  }

  function IdsOf(points: seq<Point>): set<Id> {
    set i | 0 <= i < |points| :: points[i].id
  }

  predicate Inside(r: Relation, kind: Kind, ids: set<Id>) {
    r.kind == kind && r.from in ids && r.to in ids
  }

  function IntoStep(list: seq<Edge>, r: Relation, ids: set<Id>, id: Id): seq<Edge> {
    if Inside(r, Prerequisite, ids) && r.to == id then list + [Edge(r.from, r.weight)] else list
  }

  function OutOfStep(list: seq<Edge>, r: Relation, ids: set<Id>, id: Id): seq<Edge> {
    if Inside(r, Prerequisite, ids) && r.from == id then list + [Edge(r.to, r.weight)] else list
  }

  /** Prerequisites of `id`: relations into it, in table order. */
  function EdgesInto(relations: seq<Relation>, ids: set<Id>, id: Id): seq<Edge> {
    if relations == [] then []
    else IntoStep(EdgesInto(relations[..|relations| - 1], ids, id), relations[|relations| - 1], ids, id)
  }

  /** Successors of `id`: relations out of it, in table order. */
  function EdgesOutOf(relations: seq<Relation>, ids: set<Id>, id: Id): seq<Edge> {
    if relations == [] then []
    else OutOfStep(EdgesOutOf(relations[..|relations| - 1], ids, id), relations[|relations| - 1], ids, id)
  }

  function AddNew(list: seq<Id>, id: Id): seq<Id> {
    if id in list then list else list + [id]
  }

  function PartnersStep(list: seq<Id>, r: Relation, ids: set<Id>, id: Id): seq<Id> {
    if !Inside(r, Confusable, ids) then list else
      var forth := if r.from == id then AddNew(list, r.to) else list;
      if r.to == id then AddNew(forth, r.from) else forth
  }

  function PartnersOf(relations: seq<Relation>, ids: set<Id>, id: Id): seq<Id> {
    if relations == [] then [] else
      PartnersStep(PartnersOf(relations[..|relations| - 1], ids, id), relations[|relations| - 1], ids, id)
  }

  function PrereqMap(relations: seq<Relation>, ids: set<Id>): Adjacency {
    map id | id in ids :: EdgesInto(relations, ids, id)
  }

  function SuccMap(relations: seq<Relation>, ids: set<Id>): Adjacency {
    map id | id in ids :: EdgesOutOf(relations, ids, id)
  }

  // ----- The graph and its relations ----------------------------------------------------

  predicate Links(relations: seq<Relation>, kind: Kind, ids: set<Id>, from: Id, to: Id) {
    exists i :: 0 <= i < |relations| && Inside(relations[i], kind, ids) && relations[i].from == from && relations[i].to == to
  }

  lemma LinksFront(relations: seq<Relation>, kind: Kind, ids: set<Id>, from: Id, to: Id)
    requires relations != []
    ensures var r := relations[|relations| - 1];
            Links(relations, kind, ids, from, to) <==>
            Links(relations[..|relations| - 1], kind, ids, from, to) || (Inside(r, kind, ids) && r.from == from && r.to == to)
  {
    var front := relations[..|relations| - 1];
    if Links(front, kind, ids, from, to) {
      var i :| 0 <= i < |front| && Inside(front[i], kind, ids) && front[i].from == from && front[i].to == to;
      assert relations[i] == front[i];
    }
  }

  lemma HasEdgeAppend(edges: seq<Edge>, e: Edge, to: Id)
    ensures HasEdge(edges + [e], to) <==> HasEdge(edges, to) || e.to == to
  {
    var all := edges + [e];
    assert all[|edges|] == e;
    if HasEdge(edges, to) {
      var i :| 0 <= i < |edges| && edges[i].to == to;
      assert all[i].to == to;
    }
  }

  lemma {:induction false} EdgesAreLinks(relations: seq<Relation>, ids: set<Id>, id: Id, other: Id)
    ensures HasEdge(EdgesInto(relations, ids, id), other) <==> Links(relations, Prerequisite, ids, other, id)
    ensures HasEdge(EdgesOutOf(relations, ids, id), other) <==> Links(relations, Prerequisite, ids, id, other)
  {
    if relations != [] {
      var front, r := relations[..|relations| - 1], relations[|relations| - 1];
      EdgesAreLinks(front, ids, id, other);
      LinksFront(relations, Prerequisite, ids, other, id);
      LinksFront(relations, Prerequisite, ids, id, other);
      HasEdgeAppend(EdgesInto(front, ids, id), Edge(r.from, r.weight), other);
      HasEdgeAppend(EdgesOutOf(front, ids, id), Edge(r.to, r.weight), other);
    }
  }

  /** The confusable relation is read symmetrically: a partner is anyone related either way round. */
  lemma {:induction false} PartnersAreLinks(relations: seq<Relation>, ids: set<Id>, id: Id, other: Id)
    ensures other in PartnersOf(relations, ids, id) <==>
            Links(relations, Confusable, ids, id, other) || Links(relations, Confusable, ids, other, id)
    ensures forall i, k | 0 <= i < k < |PartnersOf(relations, ids, id)| ::
              PartnersOf(relations, ids, id)[i] != PartnersOf(relations, ids, id)[k]
  {
    if relations != [] {
      PartnersAreLinks(relations[..|relations| - 1], ids, id, other);
      LinksFront(relations, Confusable, ids, other, id);
      LinksFront(relations, Confusable, ids, id, other);
    }
  }

  lemma PartnersAreSymmetric(relations: seq<Relation>, ids: set<Id>, a: Id, b: Id)
    ensures b in PartnersOf(relations, ids, a) <==> a in PartnersOf(relations, ids, b)
  {
    PartnersAreLinks(relations, ids, a, b);
    PartnersAreLinks(relations, ids, b, a);
  }
}
