/** The mutable dependency graph: an edge list, its mirror set and a lazily built index. */
module DependencyGraphs {
  import opened Collections
  import opened Identifiers
  import opened Reachability
  import opened GraphModel
  import opened GraphRename
  import opened GraphSchema
  import opened GraphLineage

  const CASCADE_INDEX_MIN_EDGES: nat := 1024

  /** The edges a predicate keeps, in order. */
  function Kept(es: seq<Edge>, keep: Edge -> bool): seq<Edge> {
    if es == [] then []
    else var n := |es| - 1; Kept(es[..n], keep) + (if keep(es[n]) then [es[n]] else [])
  }

  lemma {:induction false} KeptIsDistinct(es: seq<Edge>, keep: Edge -> bool)
    ensures |Kept(es, keep)| <= |es|
    ensures |Kept(es, keep)| == |es| ==> Kept(es, keep) == es
    ensures forall e :: e in Kept(es, keep) ==> e in es
    ensures Distinct(es) ==> Distinct(Kept(es, keep))
  {
    if es != [] {
      var n := |es| - 1;
      KeptIsDistinct(es[..n], keep);
      assert es == es[..n] + [es[n]];
      if Distinct(es) {
        assert es[n] !in es[..n];
      }
    }
  }

  /** Walk the index's renames; a revisited name makes the start its own end. */
  method ResolveRenameWith(es: seq<Edge>, renameBySource: map<ObjectId, nat>, id: ObjectId) returns (r: ObjectId)
    requires renameBySource == FirstRename(es)
    ensures r == Resolve(AliasesOf(es), id)
  {
    FirstRenameIsAlias(es);
    ghost var m := AliasesOf(es);
    var current := id;
    var visited: set<ObjectId> := {};
    while true
      invariant Walk(m, id, current, visited) == Resolve(m, id)
      decreases m.Keys - visited
    {
      if current in visited {
        return id;
      }
      visited := visited + {current};
      if current in renameBySource {
        current := es[renameBySource[current]].referenced;
      } else {
        return current;
      }
    }
  }

  /** Two passes over the edges: renames first, then resolved referenced ends. */
  method BuildIndexes(es: seq<Edge>) returns (ix: GraphIndexes)
    ensures ix == IndexesOf(es)
  {
    var renames: map<ObjectId, nat> := map[];
    for i := 0 to |es|
      invariant renames == FirstRename(es[..i])
    {
      assert es[..i + 1][..i] == es[..i];
      if es[i].kind.RenameTo? && es[i].dependent !in renames {
        renames := renames[es[i].dependent := i];
      }
    }
    assert es[..|es|] == es;
    var positions: map<ObjectId, seq<nat>> := map[];
    for i := 0 to |es|
      invariant positions == ResolvedPositions(es, AliasesOf(es), i)
    {
      var target := ResolveRenameWith(es, renames, es[i].referenced);
      var earlier := if target in positions then positions[target] else [];
      positions := positions[target := earlier + [i]];
    }
    ix := GraphIndexes(renames, positions);
  }

  method PickEdges(es: seq<Edge>, positions: seq<nat>, sel: Selector) returns (found: seq<Edge>)
    requires forall i :: 0 <= i < |positions| ==> positions[i] < |es|
    ensures found == Picked(es, positions, sel)
  {
    found := [];
    for i := 0 to |positions|
      invariant found == Picked(es, positions[..i], sel)
    {
      assert positions[..i + 1] == positions[..i] + [positions[i]];
      PickedGrows(es, positions[..i], positions[i], sel);
      if Selects(sel, es[positions[i]].kind) {
        found := found + [es[positions[i]]];
      }
    }
    assert positions[..|positions|] == positions;
  }

  class DependencyGraph {
    var edges: seq<Edge>
    var edgeSet: set<Edge>
    var indexes: Option<GraphIndexes>

    /** No edge twice, the mirror set in step, and any cached index current. */
    ghost predicate Valid()
      reads this
    {
      && Distinct(edges)
      && edgeSet == Elements(edges)
      && (indexes.Some? ==> indexes.value == IndexesOf(edges))
    }

    constructor ()
      ensures Valid() && edges == []
    {
      edges := [];
      edgeSet := {};
      indexes := None;
    }

    method AddEdge(e: Edge)
      requires Valid()
      modifies this
      ensures Valid() && edges == Added(old(edges), e)
      ensures indexes == if e in old(edges) then old(indexes) else None
    {
      if e in edgeSet {
        return;
      }
      edgeSet := edgeSet + {e};
      edges := edges + [e];
      indexes := None;
    }

    method RetainEdges(keep: Edge -> bool)
      requires Valid()
      modifies this
      ensures Valid() && edges == Kept(old(edges), keep)
      ensures indexes == if edges == old(edges) then old(indexes) else None
    {
      KeptIsDistinct(edges, keep);
      var kept: seq<Edge> := [];
      for i := 0 to |edges|
        invariant edges == old(edges) && kept == Kept(edges[..i], keep)
      {
        assert edges[..i + 1][..i] == edges[..i];
        if keep(edges[i]) {
          kept := kept + [edges[i]];
        }
      }
      assert edges[..|edges|] == edges;
      var previousLen := |edges|;
      edges := kept;
      if |edges| != previousLen {
        edgeSet := set e | e in edges;
        indexes := None;
      }
    }

    method Truncate(len: nat)
      requires Valid()
      modifies this
      ensures Valid() && edges == old(edges)[..if len < |old(edges)| then len else |old(edges)|]
      ensures indexes == if edges == old(edges) then old(indexes) else None
    {
      if len >= |edges| {
        assert edges[..|edges|] == edges;
        return;
      }
      edges := edges[..len];
      edgeSet := set e | e in edges;
      indexes := None;
    }

    /** Keep each edge's first occurrence; the seen set becomes the mirror. */
    method DeduplicateEdges()
      modifies this
      ensures edges == Dedup(old(edges)) && Distinct(edges) && edgeSet == Elements(edges) && indexes == old(indexes)
    {
      var seen: set<Edge> := {};
      var kept: seq<Edge> := [];
      for i := 0 to |edges|
        invariant edges == old(edges) && indexes == old(indexes)
        invariant seen == Elements(edges[..i]) && kept == Dedup(edges[..i])
      {
        assert edges[..i + 1][..i] == edges[..i];
        if edges[i] !in seen {
          seen := seen + {edges[i]};
          kept := kept + [edges[i]];
        }
      }
      assert edges[..|edges|] == edges;
      DedupKeepsElements(edges);
      edges := kept;
      edgeSet := seen;
    }

    method ReplaceEdges(es: seq<Edge>)
      modifies this
      ensures Valid() && edges == Dedup(es)
    {
      edges := es;
      DeduplicateEdges();
      indexes := None;
    }

    /** Any rewriting of the stored edges in place; set semantics restored after it. */
    method MutateEdges(mutate: seq<Edge> -> seq<Edge>)
      requires Valid() && |mutate(edges)| == |edges|
      modifies this
      ensures Valid() && edges == Dedup(mutate(old(edges)))
    {
      edges := mutate(edges);
      DeduplicateEdges();
      indexes := None;
    }

    method PropagateRelationRename(oldId: ObjectId, newId: ObjectId)
      requires Valid()
      modifies this
      ensures Valid() && edges == Dedup(RenamedAll(old(edges), oldId, newId))
    {
      for i := 0 to |edges|
        invariant |edges| == |old(edges)|
        invariant forall k :: 0 <= k < i ==> edges[k] == RelationRenamed(old(edges)[k], oldId, newId)
        invariant forall k :: i <= k < |edges| ==> edges[k] == old(edges)[k]
      {
        edges := edges[i := RelationRenamed(edges[i], oldId, newId)];
      }
      assert edges == RenamedAll(old(edges), oldId, newId);
      DeduplicateEdges();
      indexes := None;
    }

    method RemapSchemaNamespace(oldSchema: string, newSchema: string)
      requires Valid()
      modifies this
      ensures Valid() && edges == AfterSchemaRename(old(edges), oldSchema, newSchema)
    {
      for i := 0 to |edges|
        invariant |edges| == |old(edges)|
        invariant forall k :: 0 <= k < i ==> edges[k] == SchemaRemapped(old(edges)[k], oldSchema, newSchema)
        invariant forall k :: i <= k < |edges| ==> edges[k] == old(edges)[k]
      {
        edges := edges[i := SchemaRemapped(edges[i], oldSchema, newSchema)];
      }
      assert edges == Mapped(old(edges), e => SchemaRemapped(e, oldSchema, newSchema));
      DeduplicateEdges();
      indexes := None;
    }

    /** The cached index, built on first use. */
    method CurrentIndexes() returns (ix: GraphIndexes)
      requires Valid()
      modifies this`indexes
      ensures Valid() && ix == IndexesOf(edges) && indexes == Some(ix)
    {
      if indexes.None? {
        var built := BuildIndexes(edges);
        indexes := Some(built);
      }
      ix := indexes.value;
    }

    method ResolveRename(id: ObjectId) returns (r: ObjectId)
      requires Valid()
      modifies this`indexes
      ensures Valid() && r == Resolve(AliasesOf(edges), id)
    {
      var ix := CurrentIndexes();
      r := ResolveRenameWith(edges, ix.renameBySource, id);
    }

    /** The indexed branch: the selected edges at the positions recorded for the target. */
    method ResolvedReferencedEdges(id: ObjectId, sel: Selector) returns (found: seq<Edge>)
      requires Valid()
      modifies this`indexes
      ensures Valid() && found == Selected(edges, AliasesOf(edges), Resolve(AliasesOf(edges), id), sel)
    {
      var target := ResolveRename(id);
      var ix := CurrentIndexes();
      ghost var m := AliasesOf(edges);
      var positions := if target in ix.byResolvedReferenced then ix.byResolvedReferenced[target] else [];
      ResolvedPositionsLookup(edges, m, target, |edges|);
      PickedIsSelected(edges, m, target, sel, |edges|);
      assert edges[..|edges|] == edges;
      found := PickEdges(edges, positions, sel);
    }

    /** The scanning branch: resolve every selected edge's referenced end. A partition
        scan also accepts the written name itself, which resolution already covers. */
    method ScanReferencedEdges(id: ObjectId, sel: Selector, acceptWritten: bool) returns (found: seq<Edge>)
      requires Valid()
      modifies this`indexes
      ensures Valid() && found == Selected(edges, AliasesOf(edges), Resolve(AliasesOf(edges), id), sel)
    {
      var target := ResolveRename(id);
      found := [];
      for i := 0 to |edges|
        invariant Valid() && found == Selected(edges[..i], AliasesOf(edges), target, sel)
      {
        SelectedGrows(edges, AliasesOf(edges), target, sel, i);
        if Selects(sel, edges[i].kind) {
          var referenced := ResolveRename(edges[i].referenced);
          if referenced == target || (acceptWritten && edges[i].referenced == id) {
            found := found + [edges[i]];
          }
        }
      }
      assert edges[..|edges|] == edges;
    }

    method CascadeEdges(id: ObjectId) returns (found: seq<Edge>)
      requires Valid()
      modifies this`indexes
      ensures Valid() && found == CascadeEdgesOf(edges, id)
    {
      if |edges| < CASCADE_INDEX_MIN_EDGES {
        found := ScanReferencedEdges(id, Cascading, false);
      } else {
        found := ResolvedReferencedEdges(id, Cascading);
      }
    }

    method Partitions(id: ObjectId) returns (children: seq<ObjectId>)
      requires Valid()
      modifies this`indexes
      ensures Valid() && children == PartitionsOf(edges, id)
    {
      var found: seq<Edge>;
      if |edges| >= CASCADE_INDEX_MIN_EDGES {
        found := ResolvedReferencedEdges(id, Partitioning);
      } else {
        found := ScanReferencedEdges(id, Partitioning, true);
      }
      children := [];
      for i := 0 to |found|
        invariant Valid() && children == ResolvedDependents(found, AliasesOf(edges))[..i]
      {
        var child := ResolveRename(found[i].dependent);
        children := children + [child];
      }
    }

    /** The resolved parent on the earliest partition edge of `child`. */
    method FindParent(child: ObjectId) returns (p: Option<ObjectId>)
      requires Valid()
      modifies this`indexes
      ensures Valid() && p == FirstParent(edges, AliasesOf(edges), child)
    {
      ghost var m := AliasesOf(edges);
      for i := 0 to |edges|
        invariant Valid() && FirstParent(edges, m, child) == FirstParent(edges[i..], m, child)
      {
        if Selects(Partitioning, edges[i].kind) {
          var dependent := ResolveRename(edges[i].dependent);
          if dependent == child {
            var referenced := ResolveRename(edges[i].referenced);
            return Some(referenced);
          }
        }
      }
      p := None;
    }

    /** Climb first parents; reject on meeting the child or a malformed cycle. */
    method CheckPartitionCycle(parent: ObjectId, child: ObjectId) returns (r: bool)
      requires Valid()
      modifies this`indexes
      ensures Valid() && r == PartitionCycle(edges, parent, child)
    {
      ghost var m := AliasesOf(edges);
      var resolvedParent := ResolveRename(parent);
      var resolvedChild := ResolveRename(child);
      if resolvedParent == resolvedChild {
        return true;
      }
      var current := resolvedParent;
      var visited: set<ObjectId> := {};
      while true
        invariant Valid()
        invariant Climbs(edges, m, current, resolvedChild, visited) ==
                  Climbs(edges, m, resolvedParent, resolvedChild, {})
        decreases Climbable(edges, m) - visited
      {
        if current in visited {
          return true;
        }
        FirstParentIsLink(edges, m, current);
        var up := FindParent(current);
        if up.None? {
          return false;
        }
        if up.value == resolvedChild {
          return true;
        }
        visited := visited + {current};
        current := up.value;
      }
    }

    /** The resolved inheritance parents of `current`, in edge order. */
    method FindAncestors(current: ObjectId) returns (up: seq<ObjectId>)
      requires Valid()
      modifies this`indexes
      ensures Valid() && forall p :: p in up <==> (current, p) in Links(edges, Inheriting)
    {
      ghost var m := AliasesOf(edges);
      up := [];
      for i := 0 to |edges|
        invariant Valid()
        invariant forall p :: p in up <==> (current, p) in ParentLinks(edges[..i], m, Inheriting)
      {
        LinksGrow(edges, m, Inheriting, i);
        if Selects(Inheriting, edges[i].kind) {
          var dependent := ResolveRename(edges[i].dependent);
          if dependent == current {
            var ancestor := ResolveRename(edges[i].referenced);
            up := up + [ancestor];
          }
        }
      }
      assert edges[..|edges|] == edges;
    }

    /** Worklist over every parent; diamonds are visited once. */
    method CheckInheritanceCycle(parent: ObjectId, child: ObjectId) returns (r: bool)
      requires Valid()
      modifies this`indexes
      ensures Valid() && r == InheritanceCycle(edges, parent, child)
    {
      ghost var links := Links(edges, Inheriting);
      var resolvedParent := ResolveRename(parent);
      var resolvedChild := ResolveRename(child);
      ReachesSelf(links, resolvedParent);
      if resolvedParent == resolvedChild {
        return true;
      }
      var pending := [resolvedParent];
      var visited: set<ObjectId> := {};
      ghost var universe := {resolvedParent} + set l | l in links :: l.1;
      while pending != []
        invariant Valid()
        invariant visited <= universe && Elements(pending) <= universe
        invariant resolvedChild !in visited && resolvedChild !in pending
        invariant resolvedParent in visited || resolvedParent in pending
        invariant forall x :: x in pending ==> Reaches(links, resolvedParent, x)
        invariant forall x, y :: (x, y) in links && x in visited ==> y in visited || y in pending
        decreases universe - visited, |pending|
      {
        var current := pending[|pending| - 1];
        ghost var before := pending;
        pending := pending[..|pending| - 1];
        assert forall x :: x in before ==> x in pending || x == current;
        if current in visited {
          continue;
        }
        visited := visited + {current};
        var up := FindAncestors(current);
        if resolvedChild in up {
          ReachesSelf(links, resolvedChild);
          ReachesAfterLink(links, current, resolvedChild, resolvedChild);
          ReachesCompose(links, resolvedParent, current, resolvedChild);
          return true;
        }
        forall p | p in up ensures p in universe && Reaches(links, resolvedParent, p) {
          assert (current, p) in links;
          ReachesSelf(links, p);
          ReachesAfterLink(links, current, p, p);
          ReachesCompose(links, resolvedParent, current, p);
        }
        pending := pending + up;
      }
      if Reaches(links, resolvedParent, resolvedChild) {
        var n: nat :| Path(links, resolvedParent, resolvedChild, n);
        ClosedSetHoldsPaths(links, visited, resolvedParent, resolvedChild, n);
      }
      r := false;
    }
  }

  lemma LinksGrow(es: seq<Edge>, m: Aliases, sel: Selector, i: nat)
    requires i < |es|
    ensures ParentLinks(es[..i + 1], m, sel) == ParentLinks(es[..i], m, sel) +
            (if Selects(sel, es[i].kind) then {(Resolve(m, es[i].dependent), Resolve(m, es[i].referenced))} else {})
  {
    var small, large := es[..i], es[..i + 1];
    assert forall k :: 0 <= k < i ==> large[k] == small[k];
    assert large[i] == es[i];
  }
}
