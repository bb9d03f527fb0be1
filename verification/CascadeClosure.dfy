/** What `DROP ... CASCADE` takes with it: the recursive walk finds exactly the reachable
    relations, by scan or by index. */
module CascadeClosure {
  import opened Collections
  import opened Identifiers
  import opened Reachability
  import opened GraphModel
  import opened GraphRename
  import opened DependencyGraphs

  datatype CascadeResult = CascadeResult(relations: set<ObjectId>, indexes: set<ObjectId>, constraints: set<(ObjectId, string)>)

  /** Kinds whose dependent relation is dropped with the referenced one. */
  predicate Carries(kind: DependencyKind) {
    kind.ViewDependency? || kind.InheritanceOf? || kind.PartitionOf?
  }

  /** Dropping the first takes the second with it. `current` tells edges of live objects. */
  ghost function DropLinks(es: seq<Edge>, current: Edge -> bool): (links: set<(ObjectId, ObjectId)>)
    ensures forall x, y ::
              ((x, y) in links <==>
               (exists e :: e in es && current(e) && Carries(e.kind) && Resolve(AliasesOf(es), e.referenced) == x &&
                            Resolve(AliasesOf(es), e.dependent) == y))
  {
    var m := AliasesOf(es);
    set e | e in es && current(e) && Carries(e.kind) :: (Resolve(m, e.referenced), Resolve(m, e.dependent))
  }

  /** Everything an edge can lead to. */
  ghost function Dependents(es: seq<Edge>): set<ObjectId> {
    set e | e in es :: Resolve(AliasesOf(es), e.dependent)
  }

  /** What goes with the relations in `dropped`, among the edges `among`: the relations
      themselves, their indexes and the named foreign keys that reference them. */
  ghost function Losses(among: seq<Edge>, m: Aliases, current: Edge -> bool, dropped: set<ObjectId>): CascadeResult {
    CascadeResult(
      dropped,
      set e | e in among && current(e) && e.kind.IndexOnRelation? && Resolve(m, e.referenced) in dropped ::
        Resolve(m, e.dependent),
      set e | e in among && current(e) && e.kind.ForeignKey? && e.kind.constraintName.Some? &&
              Resolve(m, e.referenced) in dropped :: (Resolve(m, e.dependent), e.kind.constraintName.value))
  }

  function Merged(a: CascadeResult, b: CascadeResult): CascadeResult {
    CascadeResult(a.relations + b.relations, a.indexes + b.indexes, a.constraints + b.constraints)
  }

  lemma LossesOfUnion(among: seq<Edge>, m: Aliases, current: Edge -> bool, a: set<ObjectId>, b: set<ObjectId>)
    ensures Losses(among, m, current, a + b) == Merged(Losses(among, m, current, a), Losses(among, m, current, b))
  {
  }

  lemma LossesOfMoreEdges(among: seq<Edge>, e: Edge, m: Aliases, current: Edge -> bool, dropped: set<ObjectId>)
    ensures Losses(among + [e], m, current, dropped) ==
            Merged(Losses(among, m, current, dropped), Losses([e], m, current, dropped))
  {
    assert forall x :: x in among + [e] <==> x in among || x in [e];
  }

  /** Only the candidates matter for one relation. */
  lemma LossesOfCandidates(es: seq<Edge>, candidates: seq<Edge>, m: Aliases, current: Edge -> bool, node: ObjectId)
    requires forall e :: e in candidates ==> e in es
    requires forall e :: e in es && Selects(Cascading, e.kind) && Resolve(m, e.referenced) == node ==> e in candidates
    ensures Losses(candidates, m, current, {node}) == Losses(es, m, current, {node})
  {
  }

  lemma ResolveTwice(m: Aliases, id: ObjectId)
    ensures Resolve(m, Resolve(m, id)) == Resolve(m, id)
  {
    WalkResult(m, id, id, {});
    if Resolve(m, id) != id {
      TerminalResolvesToItself(m, Resolve(m, id));
    }
  }

  lemma {:induction false} SelectedIsComplete(es: seq<Edge>, m: Aliases, target: ObjectId, sel: Selector, e: Edge)
    ensures e in Selected(es, m, target, sel) <==> e in es && Selects(sel, e.kind) && Resolve(m, e.referenced) == target
  {
    if es != [] {
      var n := |es| - 1;
      SelectedIsComplete(es[..n], m, target, sel, e);
      assert es == es[..n] + [es[n]];
    }
  }

  /** Every carried child of a finished relation is finished or being finished. */
  ghost predicate ClosedExcept(links: set<(ObjectId, ObjectId)>, before: set<ObjectId>, visited: set<ObjectId>, open: set<ObjectId>) {
    forall x, y :: (x, y) in links && x in visited && x !in before && x !in open ==> y in visited
  }

  /** The candidates the walk looks at: all edges, or the indexed ones of this relation. */
  method Candidates(g: DependencyGraph, node: ObjectId) returns (candidates: seq<Edge>)
    requires g.Valid() && Resolve(AliasesOf(g.edges), node) == node
    modifies g`indexes
    ensures g.Valid()
    ensures forall e :: e in candidates ==> e in g.edges
    ensures forall e :: e in g.edges && Selects(Cascading, e.kind) && Resolve(AliasesOf(g.edges), e.referenced) == node ==>
              e in candidates
  {
    if |g.edges| >= CASCADE_INDEX_MIN_EDGES {
      candidates := g.CascadeEdges(node);
      forall e ensures e in candidates <==> e in g.edges && Selects(Cascading, e.kind) &&
                                            Resolve(AliasesOf(g.edges), e.referenced) == node {
        SelectedIsComplete(g.edges, AliasesOf(g.edges), node, Cascading, e);
      }
    } else {
      candidates := g.edges;
    }
  }

  /** What one edge loses directly when `node` is dropped. */
  method EdgeLosses(g: DependencyGraph, current: Edge -> bool, e: Edge, node: ObjectId, result: CascadeResult)
    returns (r: CascadeResult)
    requires g.Valid() && node in result.relations
    modifies g`indexes
    ensures g.Valid() && r == Merged(result, Losses([e], AliasesOf(g.edges), current, {node}))
  {
    r := result;
    ghost var m := AliasesOf(g.edges);
    assert e in [e];
    if current(e) && (e.kind.IndexOnRelation? || (e.kind.ForeignKey? && e.kind.constraintName.Some?)) {
      var referenced := g.ResolveRename(e.referenced);
      if referenced == node {
        var dependent := g.ResolveRename(e.dependent);
        if e.kind.IndexOnRelation? {
          r := r.(indexes := r.indexes + {dependent});
        } else {
          r := r.(constraints := r.constraints + {(dependent, e.kind.constraintName.value)});
        }
      }
    }
  }

  /** Everything the walk promises about the part it visited. */
  ghost predicate Walked(es: seq<Edge>, current: Edge -> bool, node: ObjectId, before: set<ObjectId>, after: set<ObjectId>,
                         result: CascadeResult, result2: CascadeResult) {
    var links := DropLinks(es, current);
    && before <= after
    && ClosedExcept(links, before, after, {})
    && (forall x :: x in after && x !in before ==> Reaches(links, node, x))
    && result2 == Merged(result, Losses(es, AliasesOf(es), current, after - before))
  }

  /** Depth-first over the carried dependents, each relation once. */
  method WalkCascade(g: DependencyGraph, current: Edge -> bool, id: ObjectId, visited: set<ObjectId>, result: CascadeResult,
                     ghost universe: set<ObjectId>) returns (visited2: set<ObjectId>, result2: CascadeResult)
    requires g.Valid() && visited <= universe && Resolve(AliasesOf(g.edges), id) in universe
    requires Dependents(g.edges) <= universe
    modifies g`indexes
    ensures g.Valid() && visited2 <= universe
    ensures Resolve(AliasesOf(g.edges), id) in visited2
    ensures Walked(g.edges, current, Resolve(AliasesOf(g.edges), id), visited, visited2, result, result2)
    decreases universe - visited, 0
  {
    var node := g.ResolveRename(id);
    if node in visited {
      NothingWalked(g.edges, current, node, visited, result);
      return visited, result;
    }
    ghost var es := g.edges;
    ResolveTwice(AliasesOf(es), id);
    visited2 := visited + {node};
    result2 := result.(relations := result.relations + {node});
    var candidates := Candidates(g, node);
    WalkBegins(es, current, node, visited, result);
    visited2, result2 := WalkCandidates(g, current, candidates, node, visited, visited2, result, result2, universe);
    WalkEnds(es, candidates, current, node, visited, visited2, result, result2);
  }

  /** The walk over the candidate edges of one relation. */
  method WalkCandidates(g: DependencyGraph, current: Edge -> bool, candidates: seq<Edge>, node: ObjectId,
                        ghost before: set<ObjectId>, visited: set<ObjectId>, ghost start: CascadeResult,
                        result: CascadeResult, ghost universe: set<ObjectId>)
    returns (visited2: set<ObjectId>, result2: CascadeResult)
    requires g.Valid() && visited <= universe && forall e :: e in candidates ==> e in g.edges
    requires Dependents(g.edges) <= universe
    requires Underway(g.edges, [], [], current, node, before, visited, start, result)
    modifies g`indexes
    ensures g.Valid() && visited <= visited2 <= universe
    ensures Underway(g.edges, candidates, candidates, current, node, before, visited2, start, result2)
    decreases universe - visited, 2
  {
    visited2, result2 := visited, result;
    ghost var done: seq<Edge> := [];
    for i := 0 to |candidates|
      invariant g.Valid() && visited <= visited2 <= universe
      invariant done + candidates[i..] == candidates
      invariant Underway(g.edges, done, done, current, node, before, visited2, start, result2)
    {
      var e := candidates[i];
      visited2, result2 := WalkCascadeEdge(g, current, e, node, before, visited2, start, result2, universe, done);
      MovedOver(done, candidates, i);
      done := done + [e];
    }
    MovedAll(done, candidates);
  }

  /** One edge of the walk: what it loses directly, and the walk of the child it carries. */
  method WalkCascadeEdge(g: DependencyGraph, current: Edge -> bool, e: Edge, node: ObjectId, ghost before: set<ObjectId>,
                         visited: set<ObjectId>, ghost start: CascadeResult, result: CascadeResult,
                         ghost universe: set<ObjectId>, ghost done: seq<Edge>)
    returns (visited2: set<ObjectId>, result2: CascadeResult)
    requires g.Valid() && e in g.edges && visited <= universe
    requires Dependents(g.edges) <= universe
    requires Underway(g.edges, done, done, current, node, before, visited, start, result)
    modifies g`indexes
    ensures g.Valid() && visited <= visited2 <= universe
    ensures Underway(g.edges, done + [e], done + [e], current, node, before, visited2, start, result2)
    decreases universe - visited, 1
  {
    ghost var es, m := g.edges, AliasesOf(g.edges);
    visited2 := visited;
    result2 := EdgeLosses(g, current, e, node, result);
    LossesAdvance(es, done, done, e, current, node, before, visited, start, result, result2);
    if current(e) && Carries(e.kind) {
      var referenced := g.ResolveRename(e.referenced);
      if referenced == node {
        var child := g.ResolveRename(e.dependent);
        assert (node, child) in DropLinks(es, current);
        if child !in visited {
          ghost var sofar := result2;
          ResolveTwice(m, e.dependent);
          visited2, result2 := WalkCascade(g, current, child, visited, result2, universe);
          ChildWalked(es, done + [e], done, current, node, child, before, visited, visited2, start, sofar, result2);
        }
      }
    }
    ChildCovered(es, done + [e], done, e, current, node, before, visited2, start, result2);
  }

  /** The relations that some of the edges take along with `node`. */
  ghost function Carried(among: seq<Edge>, m: Aliases, current: Edge -> bool, node: ObjectId): set<ObjectId> {
    set e | e in among && current(e) && Carries(e.kind) && Resolve(m, e.referenced) == node :: Resolve(m, e.dependent)
  }

  /** The walk of `node` after the losses of `lost` and the children of `walked` are done. */
  ghost predicate Underway(es: seq<Edge>, lost: seq<Edge>, walked: seq<Edge>, current: Edge -> bool, node: ObjectId,
                           before: set<ObjectId>, visited: set<ObjectId>, result: CascadeResult, result2: CascadeResult) {
    var m := AliasesOf(es);
    var links := DropLinks(es, current);
    && node !in before && before <= visited && node in visited
    && ClosedExcept(links, before, visited, {node})
    && (forall x :: x in visited && x !in before ==> Reaches(links, node, x))
    && Carried(walked, m, current, node) <= visited
    && result2 == Merged(Merged(result, Losses(es, m, current, visited - before - {node})), Losses(lost, m, current, {node}))
  }

  lemma NothingWalked(es: seq<Edge>, current: Edge -> bool, node: ObjectId, visited: set<ObjectId>, result: CascadeResult)
    ensures Walked(es, current, node, visited, visited, result, result)
  {
    assert visited - visited == {};
    assert Losses(es, AliasesOf(es), current, {}) == CascadeResult({}, {}, {});
  }

  lemma WalkBegins(es: seq<Edge>, current: Edge -> bool, node: ObjectId, visited: set<ObjectId>, result: CascadeResult)
    requires node !in visited
    ensures Underway(es, [], [], current, node, visited, visited + {node}, result,
                     result.(relations := result.relations + {node}))
  {
    var m := AliasesOf(es);
    ReachesSelf(DropLinks(es, current), node);
    assert visited + {node} - visited - {node} == {};
    assert Losses(es, m, current, {}) == CascadeResult({}, {}, {});
    assert Losses([], m, current, {node}) == CascadeResult({node}, {}, {});
  }

  lemma LossesAdvance(es: seq<Edge>, lost: seq<Edge>, walked: seq<Edge>, e: Edge, current: Edge -> bool, node: ObjectId,
                      before: set<ObjectId>, visited: set<ObjectId>, result: CascadeResult, was: CascadeResult, now: CascadeResult)
    requires Underway(es, lost, walked, current, node, before, visited, result, was)
    requires now == Merged(was, Losses([e], AliasesOf(es), current, {node}))
    ensures Underway(es, lost + [e], walked, current, node, before, visited, result, now)
  {
    var m := AliasesOf(es);
    LossesOfMoreEdges(lost, e, m, current, {node});
    MergeIsAssociative(Merged(result, Losses(es, m, current, visited - before - {node})),
                       Losses(lost, m, current, {node}), Losses([e], m, current, {node}));
  }

  lemma MergeIsAssociative(a: CascadeResult, b: CascadeResult, c: CascadeResult)
    ensures Merged(Merged(a, b), c) == Merged(a, Merged(b, c))
    ensures Merged(Merged(a, b), c) == Merged(Merged(a, c), b)
  {
  }

  lemma ChildWalked(es: seq<Edge>, lost: seq<Edge>, walked: seq<Edge>, current: Edge -> bool, node: ObjectId, child: ObjectId,
                    before: set<ObjectId>, seen: set<ObjectId>, visited: set<ObjectId>,
                    result: CascadeResult, sofar: CascadeResult, now: CascadeResult)
    requires Underway(es, lost, walked, current, node, before, seen, result, sofar)
    requires Walked(es, current, child, seen, visited, sofar, now)
    requires (node, child) in DropLinks(es, current)
    ensures Underway(es, lost, walked, current, node, before, visited, result, now)
  {
    var m, links := AliasesOf(es), DropLinks(es, current);
    forall x | x in visited && x !in before ensures Reaches(links, node, x) {
      if x !in seen {
        ReachesAfterLink(links, node, child, x);
      }
    }
    LossesAddUp(es, lost, m, current, node, before, seen, visited, result);
  }

  lemma LossesAddUp(es: seq<Edge>, lost: seq<Edge>, m: Aliases, current: Edge -> bool, node: ObjectId,
                    before: set<ObjectId>, seen: set<ObjectId>, visited: set<ObjectId>, result: CascadeResult)
    requires before <= seen <= visited && node in seen
    ensures var mine := Losses(lost, m, current, {node});
            Merged(Merged(Merged(result, Losses(es, m, current, seen - before - {node})), mine), Losses(es, m, current, visited - seen)) ==
            Merged(Merged(result, Losses(es, m, current, visited - before - {node})), mine)
  {
    var old_, new_ := seen - before - {node}, visited - seen;
    assert visited - before - {node} == old_ + new_;
    LossesOfUnion(es, m, current, old_, new_);
    var base, mine := Merged(result, Losses(es, m, current, old_)), Losses(lost, m, current, {node});
    MergeIsAssociative(base, mine, Losses(es, m, current, new_));
    MergeIsAssociative(result, Losses(es, m, current, old_), Losses(es, m, current, new_));
  }

  lemma ChildCovered(es: seq<Edge>, lost: seq<Edge>, walked: seq<Edge>, e: Edge, current: Edge -> bool, node: ObjectId,
                     before: set<ObjectId>, visited: set<ObjectId>, result: CascadeResult, now: CascadeResult)
    requires Underway(es, lost, walked, current, node, before, visited, result, now)
    requires current(e) && Carries(e.kind) && Resolve(AliasesOf(es), e.referenced) == node ==>
               Resolve(AliasesOf(es), e.dependent) in visited
    ensures Underway(es, lost, walked + [e], current, node, before, visited, result, now)
  {
  }

  lemma WalkEnds(es: seq<Edge>, candidates: seq<Edge>, current: Edge -> bool, node: ObjectId,
                 before: set<ObjectId>, visited: set<ObjectId>, result: CascadeResult, now: CascadeResult)
    requires Underway(es, candidates, candidates, current, node, before, visited, result, now)
    requires forall e :: e in candidates ==> e in es
    requires forall e :: e in es && Selects(Cascading, e.kind) && Resolve(AliasesOf(es), e.referenced) == node ==> e in candidates
    ensures Walked(es, current, node, before, visited, result, now)
  {
    var m, links := AliasesOf(es), DropLinks(es, current);
    forall x, y | (x, y) in links && x in visited && x !in before ensures y in visited {
      if x == node {
        var e :| e in es && current(e) && Carries(e.kind) && Resolve(m, e.referenced) == x && Resolve(m, e.dependent) == y;
        assert e in candidates;
      }
    }
    LossesOfCandidates(es, candidates, m, current, node);
    var rest := visited - before - {node};
    assert visited - before == rest + {node};
    LossesOfUnion(es, m, current, rest, {node});
    MergeIsAssociative(result, Losses(es, m, current, rest), Losses(es, m, current, {node}));
  }

  /** A live dependency of `x` that a drop of what it references takes along. */
  ghost predicate Drags(es: seq<Edge>, current: Edge -> bool, e: Edge, from_: ObjectId, x: ObjectId) {
    && e in es && current(e) && (e.kind.ViewDependency? || e.kind.InheritanceOf? || e.kind.PartitionOf?)
    && Resolve(AliasesOf(es), e.referenced) == from_ && Resolve(AliasesOf(es), e.dependent) == x
  }

  /** Edge by edge: nothing that depends on a dropped relation stays, nothing is dropped without
      such a dependency, and indexes and named foreign keys go exactly with their relations. */
  ghost predicate IsDropOf(es: seq<Edge>, current: Edge -> bool, node: ObjectId, r: CascadeResult) {
    var m := AliasesOf(es);
    && node in r.relations
    && (forall e, x, y :: Drags(es, current, e, x, y) && x in r.relations ==> y in r.relations)
    && (forall y :: y in r.relations && y != node ==> exists e, x :: Drags(es, current, e, x, y) && x in r.relations)
    && (forall i :: i in r.indexes <==>
          exists e :: e in es && current(e) && e.kind.IndexOnRelation? && Resolve(m, e.referenced) in r.relations &&
                      i == Resolve(m, e.dependent))
    && (forall c :: c in r.constraints <==>
          exists e :: e in es && current(e) && e.kind.ForeignKey? && e.kind.constraintName.Some? &&
                      Resolve(m, e.referenced) in r.relations && c == (Resolve(m, e.dependent), e.kind.constraintName.value))
  }

  lemma {:induction false} LastLink(links: set<(ObjectId, ObjectId)>, x: ObjectId, y: ObjectId, n: nat) returns (z: ObjectId)
    requires Path(links, x, y, n) && n > 0
    ensures Reaches(links, x, z) && (z, y) in links
    decreases n
  {
    var w :| (x, w) in links && Path(links, w, y, n - 1);
    if n == 1 {
      z := x;
      ReachesSelf(links, x);
    } else {
      z := LastLink(links, w, y, n - 1);
      ReachesAfterLink(links, x, w, z);
    }
  }

  lemma ClosureIsDrop(es: seq<Edge>, current: Edge -> bool, node: ObjectId, r: CascadeResult)
    requires forall x :: x in r.relations <==> Reaches(DropLinks(es, current), node, x)
    requires r == Losses(es, AliasesOf(es), current, r.relations)
    ensures IsDropOf(es, current, node, r)
  {
    var m, links := AliasesOf(es), DropLinks(es, current);
    ReachesSelf(links, node);
    forall e, x, y | Drags(es, current, e, x, y) && x in r.relations ensures y in r.relations {
      assert (x, y) in links;
      ReachesSelf(links, y);
      ReachesAfterLink(links, x, y, y);
      ReachesCompose(links, node, x, y);
    }
    forall y | y in r.relations && y != node ensures exists e, x :: Drags(es, current, e, x, y) && x in r.relations {
      var n: nat :| Path(links, node, y, n);
      var x := LastLink(links, node, y, n);
      assert x in r.relations && (x, y) in links;
      var e :| e in es && current(e) && Carries(e.kind) && Resolve(m, e.referenced) == x && Resolve(m, e.dependent) == y;
      assert Drags(es, current, e, x, y);
    }
  }

  /** The closure of a drop. */
  method GetCascadeClosure(g: DependencyGraph, current: Edge -> bool, target: ObjectId) returns (result: CascadeResult)
    requires g.Valid()
    modifies g`indexes
    ensures g.Valid()
    ensures forall x :: x in result.relations <==> Reaches(DropLinks(g.edges, current), Resolve(AliasesOf(g.edges), target), x)
    ensures result == Losses(g.edges, AliasesOf(g.edges), current, result.relations)
    ensures IsDropOf(g.edges, current, Resolve(AliasesOf(g.edges), target), result)
  {
    ghost var es := g.edges;
    ghost var node := Resolve(AliasesOf(es), target);
    ghost var universe := {node} + Dependents(es);
    var empty := CascadeResult({}, {}, {});
    var visited;
    visited, result := WalkCascade(g, current, target, {}, empty, universe);
    WalkedFromNothing(es, current, node, visited, result);
    ClosureIsDrop(es, current, node, result);
  }

  lemma WalkedFromNothing(es: seq<Edge>, current: Edge -> bool, node: ObjectId, visited: set<ObjectId>, result: CascadeResult)
    requires node in visited && Walked(es, current, node, {}, visited, CascadeResult({}, {}, {}), result)
    ensures result == Losses(es, AliasesOf(es), current, visited)
    ensures forall x :: x in visited <==> Reaches(DropLinks(es, current), node, x)
  {
    assert visited - {} == visited;
    ClosedMeansReached(DropLinks(es, current), node, visited);
  }

  lemma ClosedMeansReached(links: set<(ObjectId, ObjectId)>, node: ObjectId, visited: set<ObjectId>)
    requires node in visited && ClosedExcept(links, {}, visited, {})
    requires forall x :: x in visited ==> Reaches(links, node, x)
    ensures forall x :: x in visited <==> Reaches(links, node, x)
  {
    forall x | Reaches(links, node, x) ensures x in visited {
      var n: nat :| Path(links, node, x, n);
      ClosedSetHoldsPaths(links, visited, node, x, n);
    }
  }
}
