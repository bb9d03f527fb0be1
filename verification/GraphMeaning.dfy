/** What the graph's lookups and rewritings mean, edge by edge and kind by kind. */
module GraphMeaning {
  import opened Collections
  import opened Identifiers
  import opened GraphModel
  import opened GraphRename
  import opened GraphSchema
  import opened GraphLineage
  import opened CascadeClosure

  // ------------------------------------------------- lookups by resolved name

  /** Cascade edges: views, indexes, foreign keys, children by inheritance and partitions, the
      ones being detached included, whose referenced end denotes the same object. */
  lemma CascadeLookupMeaning(es: seq<Edge>, id: ObjectId, e: Edge)
    ensures e in CascadeEdgesOf(es, id) <==>
            && e in es && Resolve(AliasesOf(es), e.referenced) == Resolve(AliasesOf(es), id)
            && (|| e.kind.ViewDependency? || e.kind.IndexOnRelation? || e.kind.ForeignKey?
                || e.kind.InheritanceOf? || e.kind.PartitionOf? || e.kind.PartitionDetachPending?)
  {
    SelectedIsComplete(es, AliasesOf(es), Resolve(AliasesOf(es), id), Cascading, e);
  }

  /** Partitions: the resolved children of attached and of pending-detach edges, and no others. */
  lemma PartitionLookupMeaning(es: seq<Edge>, id: ObjectId, child: ObjectId)
    ensures child in PartitionsOf(es, id) <==>
            exists e :: e in es && (e.kind.PartitionOf? || e.kind.PartitionDetachPending?) &&
                        Resolve(AliasesOf(es), e.referenced) == Resolve(AliasesOf(es), id) &&
                        Resolve(AliasesOf(es), e.dependent) == child
  {
    var m := AliasesOf(es);
    var target := Resolve(m, id);
    var found := Selected(es, m, target, Partitioning);
    if child in PartitionsOf(es, id) {
      var i :| 0 <= i < |found| && PartitionsOf(es, id)[i] == child;
      SelectedIsComplete(es, m, target, Partitioning, found[i]);
    }
    forall e | e in es && (e.kind.PartitionOf? || e.kind.PartitionDetachPending?) && Resolve(m, e.referenced) == target &&
               Resolve(m, e.dependent) == child
      ensures child in PartitionsOf(es, id)
    {
      SelectedIsComplete(es, m, target, Partitioning, e);
      var i :| 0 <= i < |found| && found[i] == e;
      assert PartitionsOf(es, id)[i] == child;
    }
  }

  /** The ancestries the guards protect, by kind. */
  lemma AncestryMeaning(es: seq<Edge>, a: ObjectId, b: ObjectId)
    ensures (a, b) in Links(es, Partitioning) <==>
            exists e :: e in es && (e.kind.PartitionOf? || e.kind.PartitionDetachPending?) &&
                        Resolve(AliasesOf(es), e.dependent) == a && Resolve(AliasesOf(es), e.referenced) == b
    ensures (a, b) in Links(es, Inheriting) <==>
            exists e :: e in es && e.kind.InheritanceOf? &&
                        Resolve(AliasesOf(es), e.dependent) == a && Resolve(AliasesOf(es), e.referenced) == b
  {
    LinkOfEdge(es, Partitioning, a, b);
    LinkOfEdge(es, Inheriting, a, b);
  }

  lemma LinkOfEdge(es: seq<Edge>, sel: Selector, a: ObjectId, b: ObjectId)
    ensures (a, b) in Links(es, sel) <==>
            exists e :: e in es && Selects(sel, e.kind) &&
                        Resolve(AliasesOf(es), e.dependent) == a && Resolve(AliasesOf(es), e.referenced) == b
  {
    var m := AliasesOf(es);
    forall e | e in es && Selects(sel, e.kind) && Resolve(m, e.dependent) == a && Resolve(m, e.referenced) == b
      ensures (a, b) in Links(es, sel)
    {
      var i :| 0 <= i < |es| && es[i] == e;
    }
  }

  // ------------------------------------------------- schema rename

  /** In which schema an identity ends up. */
  ghost predicate MovesSchema(before: ObjectId, after: ObjectId, old_: string, new_: string) {
    after.name == before.name && after.schema == if before.schema == old_ then new_ else before.schema
  }

  /** Every end moves with its schema but the publication of a membership edge; the payload keeps
      everything but the identities in it, and those move too. */
  lemma SchemaRenameMeaning(es: seq<Edge>, old_: string, new_: string, i: nat)
    requires Distinct(es) && Unused(es, new_) && i < |es|
    ensures i < |AfterSchemaRename(es, old_, new_)|
    ensures var e, r := es[i], AfterSchemaRename(es, old_, new_)[i];
            && MovesSchema(e.dependent, r.dependent, old_, new_)
            && (if e.kind.PublicationIncludes? then r.referenced == e.referenced
                else MovesSchema(e.referenced, r.referenced, old_, new_))
            && (e.kind.TriggerOnTable? ==>
                  && r.kind.TriggerOnTable? && r.kind.triggerGeneration == e.kind.triggerGeneration
                  && MovesSchema(e.kind.triggerId, r.kind.triggerId, old_, new_)
                  && MovesSchema(e.kind.functionId, r.kind.functionId, old_, new_))
            && (e.kind.ViewUsesRoutine? && e.kind.unresolvedName.Some? ==>
                  && r.kind.ViewUsesRoutine? && r.kind.unresolvedName.Some?
                  && MovesSchema(e.kind.unresolvedName.value, r.kind.unresolvedName.value, old_, new_))
            && (!e.kind.TriggerOnTable? && !(e.kind.ViewUsesRoutine? && e.kind.unresolvedName.Some?) ==> r.kind == e.kind)
  {
    SchemaRenameMergesNothing(es, old_, new_);
    RemappedEdge(es[i], old_, new_);
  }

  lemma RemappedEdge(e: Edge, old_: string, new_: string)
    ensures var r := SchemaRemapped(e, old_, new_);
            && MovesSchema(e.dependent, r.dependent, old_, new_)
            && (if e.kind.PublicationIncludes? then r.referenced == e.referenced
                else MovesSchema(e.referenced, r.referenced, old_, new_))
            && (e.kind.TriggerOnTable? ==>
                  && r.kind.TriggerOnTable? && r.kind.triggerGeneration == e.kind.triggerGeneration
                  && MovesSchema(e.kind.triggerId, r.kind.triggerId, old_, new_)
                  && MovesSchema(e.kind.functionId, r.kind.functionId, old_, new_))
            && (e.kind.ViewUsesRoutine? && e.kind.unresolvedName.Some? ==>
                  && r.kind.ViewUsesRoutine? && r.kind.unresolvedName.Some?
                  && MovesSchema(e.kind.unresolvedName.value, r.kind.unresolvedName.value, old_, new_))
            && (!e.kind.TriggerOnTable? && !(e.kind.ViewUsesRoutine? && e.kind.unresolvedName.Some?) ==> r.kind == e.kind)
  {
  }

  // ------------------------------------------------- lookups by exact identity

  /** The bare name is what stands before the first parenthesis, or all there is. */
  lemma {:induction false} BareNameMeaning(bare: string, rest: string)
    requires '(' !in bare && (rest == "" || rest[0] == '(')
    ensures BareName(bare + rest) == bare
  {
    var name := bare + rest;
    if bare == "" {
      assert name == rest;
    } else {
      assert name[0] == bare[0] && bare[0] in bare && name[1..] == bare[1..] + rest;
      BareNameMeaning(bare[1..], rest);
      assert bare == [bare[0]] + bare[1..];
    }
  }

  lemma {:induction false} MatchingIsComplete(es: seq<Edge>, q: Lookup, e: Edge)
    ensures e in Matching(es, q) <==> e in es && Matches(q, e)
  {
    if es != [] {
      var n := |es| - 1;
      MatchingIsComplete(es[..n], q, e);
      assert es == es[..n] + [es[n]];
    }
  }

  /** A routine `bare(arguments)` is used by views that resolved to it, and by views that only
      know its schema and bare name. */
  lemma ViewsForFunctionMeaning(es: seq<Edge>, id: ObjectId, bare: string, rest: string, e: Edge)
    requires id.name == bare + rest && '(' !in bare && (rest == "" || rest[0] == '(')
    ensures e in Matching(es, ViewsForFunction(id)) <==>
            && e in es && e.kind.ViewUsesRoutine?
            && (if e.kind.unresolvedName.None? then e.referenced == id else e.kind.unresolvedName.value == ObjectId(id.schema, bare))
  {
    MatchingIsComplete(es, ViewsForFunction(id), e);
    BareNameMeaning(bare, rest);
  }

  lemma ExactLookupMeaning(es: seq<Edge>, id: ObjectId, e: Edge)
    ensures e in Matching(es, ViewsForType(id)) <==> e in es && e.kind.ViewUsesType? && e.referenced == id
    ensures e in Matching(es, TriggersForFunction(id)) <==> e in es && e.kind.TriggerOnTable? && e.kind.functionId == id
  {
    MatchingIsComplete(es, ViewsForType(id), e);
    MatchingIsComplete(es, TriggersForFunction(id), e);
  }
}
