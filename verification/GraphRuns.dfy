/** Guarded runs on the mutable graph: every change is made only after its guard was asked. */
module GraphRuns {
  import opened Collections
  import opened Identifiers
  import opened GraphModel
  import opened GraphRename
  import opened GraphSchema
  import opened GraphLineage
  import opened DependencyGraphs

  lemma {:induction false} KeptIsWithout(es: seq<Edge>, gone: set<Edge>)
    ensures Kept(es, e => e !in gone) == Without(es, gone)
  {
    if es != [] {
      KeptIsWithout(es[..|es| - 1], gone);
    }
  }

  /** The step is taken exactly when it is admitted, and then does what it says. */
  method TakeStep(g: DependencyGraph, s: Step) returns (taken: bool)
    requires g.Valid()
    modifies g
    ensures g.Valid() && (taken <==> Admitted(old(g.edges), s))
    ensures g.edges == if taken then Taken(old(g.edges), s) else old(g.edges)
  {
    taken := false;
    match s {
      case Attach(child, parent) => taken := AttachPartition(g, child, parent);
      case Inherit(child, parent) =>
        var cycle := g.CheckInheritanceCycle(parent, child);
        if !cycle {
          g.AddEdge(Edge(child, parent, InheritanceOf));
          taken := true;
        }
      case Rename(oldId, newId) =>
        if CanRename(g.edges, oldId, newId) {
          g.PropagateRelationRename(oldId, newId);
          g.AddEdge(Edge(oldId, newId, RenameTo));
          taken := true;
        }
      case RenameSchema(oldSchema, newSchema) =>
        if Unused(g.edges, newSchema) {
          g.RemapSchemaNamespace(oldSchema, newSchema);
          taken := true;
        }
      case Remove(gone) =>
        if forall e :: e in gone ==> !e.kind.RenameTo? {
          KeptIsWithout(g.edges, gone);
          g.RetainEdges(e => e !in gone);
          taken := true;
        }
      case AddOther(edge) =>
        if !edge.kind.RenameTo? && !Selects(Partitioning, edge.kind) && !Selects(Inheriting, edge.kind) {
          g.AddEdge(edge);
          taken := true;
        }
    }
  }

  /** A partition is attached when the guard accepts and the child has no parent yet. */
  method AttachPartition(g: DependencyGraph, child: ObjectId, parent: ObjectId) returns (taken: bool)
    requires g.Valid()
    modifies g
    ensures g.Valid() && (taken <==> Admitted(old(g.edges), Attach(child, parent)))
    ensures g.edges == if taken then Taken(old(g.edges), Attach(child, parent)) else old(g.edges)
  {
    var cycle := g.CheckPartitionCycle(parent, child);
    var resolved := g.ResolveRename(child);
    var up := g.FindParent(resolved);
    FirstParentIsLink(g.edges, AliasesOf(g.edges), resolved);
    taken := !cycle && up.None?;
    if taken {
      g.AddEdge(Edge(child, parent, PartitionOf));
    }
  }

  /** The next request joins the admitted ones, or is passed over. */
  lemma {:induction false} OneRequest(done: seq<Step>, es: seq<Edge>, requests: seq<Step>, i: nat)
    requires i < |requests|
    ensures done + AdmittedOf(es, requests[i..]) ==
            if Admitted(es, requests[i]) then (done + [requests[i]]) + AdmittedOf(Taken(es, requests[i]), requests[i + 1..])
            else done + AdmittedOf(es, requests[i + 1..])
  {
    var left := requests[i..];
    assert left[0] == requests[i] && left[1..] == requests[i + 1..];
  }

  /** From the empty graph, whatever is asked for: exactly the requests the guards admit are
      taken, in order, and at the end both ancestries are acyclic and no partition has two
      parents. */
  method GuardedRun(requests: seq<Step>) returns (g: DependencyGraph, ghost done: seq<Step>)
    ensures fresh(g) && g.Valid() && Sound(g.edges)
    ensures done == AdmittedOf([], requests) && Run([], done, g.edges)
  {
    g := new DependencyGraph();
    done := [];
    EmptyGraphIsSound();
    for i := 0 to |requests|
      invariant fresh(g) && g.Valid()
      invariant Run([], done, g.edges) && AdmittedOf([], requests) == done + AdmittedOf(g.edges, requests[i..])
    {
      OneRequest(done, g.edges, requests, i);
      ghost var before := g.edges;
      var taken := TakeStep(g, requests[i]);
      if taken {
        RunExtends([], done, before, requests[i]);
        done := done + [requests[i]];
      }
    }
    assert done + [] == done;
    RunsStayAcyclic([], done, g.edges);
  }
}
