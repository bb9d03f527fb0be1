/** `ALTER SCHEMA ... RENAME` over the dependency graph. */
module GraphSchema {
  import opened Collections
  import opened Identifiers
  import opened GraphModel
  import opened GraphRename

  function Remap(id: ObjectId, old_: string, new_: string): ObjectId {
    if id.schema == old_ then ObjectId(new_, id.name) else id
  }

  /** One edge after a schema rename. Publication nodes are cluster-scoped and stay;
      trigger and written-routine identities in the payload move with their ends. */
  function SchemaRemapped(e: Edge, old_: string, new_: string): Edge {
    match e.kind
    case PublicationIncludes(_) => e.(dependent := Remap(e.dependent, old_, new_))
    case TriggerOnTable(t, f, g) =>
      Edge(Remap(e.dependent, old_, new_), Remap(e.referenced, old_, new_),
           TriggerOnTable(Remap(t, old_, new_), Remap(f, old_, new_), g))
    case ViewUsesRoutine(Some(written)) =>
      Edge(Remap(e.dependent, old_, new_), Remap(e.referenced, old_, new_),
           ViewUsesRoutine(Some(Remap(written, old_, new_))))
    case _ => e.(dependent := Remap(e.dependent, old_, new_), referenced := Remap(e.referenced, old_, new_))
  }

  /** The rewrite as `remap_schema_namespace` performs it, set semantics restored. */
  function AfterSchemaRename(es: seq<Edge>, old_: string, new_: string): seq<Edge> {
    Dedup(Mapped(es, e => SchemaRemapped(e, old_, new_)))
  }

  /** No schema-qualified identity of the edge lives in `schema`. */
  predicate Avoids(e: Edge, schema: string) {
    && e.dependent.schema != schema
    && (e.kind.PublicationIncludes? || e.referenced.schema != schema)
    && (e.kind.TriggerOnTable? ==> e.kind.triggerId.schema != schema && e.kind.functionId.schema != schema)
    && (e.kind.ViewUsesRoutine? && e.kind.unresolvedName.Some? ==> e.kind.unresolvedName.value.schema != schema)
  }

  predicate Unused(es: seq<Edge>, schema: string) {
    forall e :: e in es ==> Avoids(e, schema)
  }

  /** `m2` is `m` with every name moved, read from the old names. */
  ghost predicate RemapsAliases(m: Aliases, m2: Aliases, old_: string, new_: string) {
    forall id: ObjectId {:trigger id in m} {:trigger Remap(id, old_, new_)} :: id.schema != new_ ==>
      && (Remap(id, old_, new_) in m2 <==> id in m)
      && (id in m ==> m2[Remap(id, old_, new_)] == Remap(m[id], old_, new_) && m[id].schema != new_)
  }

  lemma {:induction false} SchemaRenameMapsAliases(es: seq<Edge>, old_: string, new_: string)
    requires Unused(es, new_)
    ensures RemapsAliases(AliasesOf(es), AliasesOf(Mapped(es, e => SchemaRemapped(e, old_, new_))), old_, new_)
  {
    if es != [] {
      var n := |es| - 1;
      var f := e => SchemaRemapped(e, old_, new_);
      assert Mapped(es, f)[..n] == Mapped(es[..n], f);
      SchemaRenameMapsAliases(es[..n], old_, new_);
      var last := es[n];
      assert Avoids(last, new_);
      assert f(last).kind.RenameTo? <==> last.kind.RenameTo?;
    }
  }

  ghost function RemapSet(ids: set<ObjectId>, old_: string, new_: string): set<ObjectId> {
    set v | v in ids :: Remap(v, old_, new_)
  }

  lemma {:induction false} WalkAfterSchemaRename(m: Aliases, m2: Aliases, old_: string, new_: string, start: ObjectId,
                                                 current: ObjectId, visited: set<ObjectId>)
    requires RemapsAliases(m, m2, old_, new_)
    requires current.schema != new_ && start.schema != new_ && forall v :: v in visited ==> v.schema != new_
    ensures Walk(m2, Remap(start, old_, new_), Remap(current, old_, new_), RemapSet(visited, old_, new_)) ==
            Remap(Walk(m, start, current, visited), old_, new_)
    ensures Walk(m, start, current, visited).schema != new_
    decreases m.Keys - visited
  {
    var image := RemapSet(visited, old_, new_);
    assert Remap(current, old_, new_) in image <==> current in visited;
    if current !in visited && current in m {
      assert RemapSet(visited + {current}, old_, new_) == image + {Remap(current, old_, new_)};
      WalkAfterSchemaRename(m, m2, old_, new_, start, m[current], visited + {current});
    }
  }

  lemma ResolveAfterSchemaRename(m: Aliases, m2: Aliases, old_: string, new_: string, id: ObjectId)
    requires RemapsAliases(m, m2, old_, new_) && id.schema != new_
    ensures Resolve(m2, Remap(id, old_, new_)) == Remap(Resolve(m, id), old_, new_)
    ensures Resolve(m, id).schema != new_
  {
    WalkAfterSchemaRename(m, m2, old_, new_, id, id, {});
    assert RemapSet({}, old_, new_) == {};
  }

  lemma SchemaRenameMergesNothing(es: seq<Edge>, old_: string, new_: string)
    requires Distinct(es) && Unused(es, new_)
    ensures AfterSchemaRename(es, old_, new_) == Mapped(es, e => SchemaRemapped(e, old_, new_))
  {
    var f := e => SchemaRemapped(e, old_, new_);
    forall i, j | 0 <= i < |es| && 0 <= j < |es| && f(es[i]) == f(es[j]) ensures es[i] == es[j] {
      assert Avoids(es[i], new_) && Avoids(es[j], new_);
      RemapIsInjective(es[i], es[j], old_, new_);
    }
    MappedStaysDistinct(es, f);
  }

  lemma RemapIsInjective(a: Edge, b: Edge, old_: string, new_: string)
    requires Avoids(a, new_) && Avoids(b, new_)
    requires SchemaRemapped(a, old_, new_) == SchemaRemapped(b, old_, new_)
    ensures a == b
  {
    assert a.kind.TriggerOnTable? <==> b.kind.TriggerOnTable?;
    assert a.kind.ViewUsesRoutine? <==> b.kind.ViewUsesRoutine?;
    assert a.kind.PublicationIncludes? <==> b.kind.PublicationIncludes?;
  }

  /** Renaming a schema to an unused name and back restores every edge. */
  lemma SchemaRenameRoundTrip(es: seq<Edge>, old_: string, new_: string)
    requires Distinct(es) && Unused(es, new_)
    ensures AfterSchemaRename(AfterSchemaRename(es, old_, new_), new_, old_) == es
  {
    SchemaRenameMergesNothing(es, old_, new_);
    var there := AfterSchemaRename(es, old_, new_);
    var back := Mapped(there, e => SchemaRemapped(e, new_, old_));
    forall i | 0 <= i < |es| ensures back[i] == es[i] {
      assert es[i] in es;
      EdgeComesBack(es[i], old_, new_);
    }
    assert back == es;
    DedupOfDistinct(es);
  }

  lemma EdgeComesBack(e: Edge, old_: string, new_: string)
    requires Avoids(e, new_)
    ensures SchemaRemapped(SchemaRemapped(e, old_, new_), new_, old_) == e
  {
  }

  // ------------------------------------------------- lookups by exact identity

  /** The bare name of a routine identity `name(arguments)`. */
  function BareName(name: string): string {
    if name == "" || name[0] == '(' then "" else [name[0]] + BareName(name[1..])
  }

  datatype Lookup = ViewsForFunction(id: ObjectId) | ViewsForType(id: ObjectId) | TriggersForFunction(id: ObjectId)

  predicate Matches(q: Lookup, e: Edge) {
    match q
    case ViewsForFunction(id) =>
      e.kind.ViewUsesRoutine? &&
      (match e.kind.unresolvedName
       case None => e.referenced == id
       case Some(written) => written.schema == id.schema && written.name == BareName(id.name))
    case ViewsForType(id) => e.kind.ViewUsesType? && e.referenced == id
    case TriggersForFunction(id) => e.kind.TriggerOnTable? && e.kind.functionId == id
  }

  function Matching(es: seq<Edge>, q: Lookup): seq<Edge> {
    if es == [] then []
    else var n := |es| - 1; Matching(es[..n], q) + (if Matches(q, es[n]) then [es[n]] else [])
  }

  lemma {:induction false} MatchingImage(es: seq<Edge>, q: Lookup, old_: string, new_: string)
    requires Unused(es, new_) && q.id.schema != new_
    ensures Matching(Mapped(es, e => SchemaRemapped(e, old_, new_)), q.(id := Remap(q.id, old_, new_))) ==
            Mapped(Matching(es, q), e => SchemaRemapped(e, old_, new_))
  {
    if es != [] {
      var n := |es| - 1;
      var f := e => SchemaRemapped(e, old_, new_);
      assert Mapped(es, f)[..n] == Mapped(es[..n], f);
      MatchingImage(es[..n], q, old_, new_);
      assert Avoids(es[n], new_);
      assert Matches(q.(id := Remap(q.id, old_, new_)), f(es[n])) <==> Matches(q, es[n]);
    }
  }

  /** A schema rename to an unused name commutes with resolution and with every lookup. */
  lemma SchemaRenameCommutes(es: seq<Edge>, old_: string, new_: string, id: ObjectId)
    requires Distinct(es) && Unused(es, new_) && id.schema != new_
    ensures var after := AfterSchemaRename(es, old_, new_);
            var there := Remap(id, old_, new_);
            var f := (e: Edge) => SchemaRemapped(e, old_, new_);
            && |after| == |es|
            && Resolve(AliasesOf(after), there) == Remap(Resolve(AliasesOf(es), id), old_, new_)
            && CascadeEdgesOf(after, there) == Mapped(CascadeEdgesOf(es, id), f)
            && Matching(after, ViewsForFunction(there)) == Mapped(Matching(es, ViewsForFunction(id)), f)
            && Matching(after, ViewsForType(there)) == Mapped(Matching(es, ViewsForType(id)), f)
            && Matching(after, TriggersForFunction(there)) == Mapped(Matching(es, TriggersForFunction(id)), f)
  {
    SchemaRenameMergesNothing(es, old_, new_);
    SchemaRenameMapsAliases(es, old_, new_);
    var m, m2 := AliasesOf(es), AliasesOf(AfterSchemaRename(es, old_, new_));
    ResolveAfterSchemaRename(m, m2, old_, new_, id);
    SelectedAfterSchemaRename(es, old_, new_, Resolve(m, id));
    MatchingImage(es, ViewsForFunction(id), old_, new_);
    MatchingImage(es, ViewsForType(id), old_, new_);
    MatchingImage(es, TriggersForFunction(id), old_, new_);
  }

  lemma SelectedAfterSchemaRename(es: seq<Edge>, old_: string, new_: string, target: ObjectId)
    requires Distinct(es) && Unused(es, new_) && target.schema != new_
    ensures var f := (e: Edge) => SchemaRemapped(e, old_, new_); var after := Mapped(es, f);
            Selected(after, AliasesOf(after), Remap(target, old_, new_), Cascading) ==
            Mapped(Selected(es, AliasesOf(es), target, Cascading), f)
  {
    var f := (e: Edge) => SchemaRemapped(e, old_, new_);
    var m, m2 := AliasesOf(es), AliasesOf(Mapped(es, f));
    SchemaRenameMapsAliases(es, old_, new_);
    forall e | e in es && Selects(Cascading, e.kind)
      ensures Resolve(m2, f(e).referenced) == Remap(target, old_, new_) <==> Resolve(m, e.referenced) == target
    {
      assert Avoids(e, new_);
      ResolveAfterSchemaRename(m, m2, old_, new_, e.referenced);
    }
    SelectedImage(es, m, m2, target, Remap(target, old_, new_), Cascading, f);
  }

  /** Membership edges keep pointing at the same publication node. */
  lemma PublicationNodesStay(es: seq<Edge>, old_: string, new_: string, i: nat)
    requires Distinct(es) && Unused(es, new_) && i < |es| && es[i].kind.PublicationIncludes?
    ensures i < |AfterSchemaRename(es, old_, new_)|
    ensures AfterSchemaRename(es, old_, new_)[i].referenced == es[i].referenced
    ensures AfterSchemaRename(es, old_, new_)[i].kind == es[i].kind
  {
    SchemaRenameMergesNothing(es, old_, new_);
  }
}
