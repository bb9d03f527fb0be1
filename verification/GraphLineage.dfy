/** Partition and inheritance ancestry: the two cycle guards and the runs they protect. */
module GraphLineage {
  import opened Collections
  import opened Identifiers
  import opened Reachability
  import opened GraphModel
  import opened GraphRename
  import opened GraphSchema

  /** Child-to-parent links, read through the aliases. */
  ghost function ParentLinks(es: seq<Edge>, m: Aliases, sel: Selector): set<(ObjectId, ObjectId)> {
    set i | 0 <= i < |es| && Selects(sel, es[i].kind) :: (Resolve(m, es[i].dependent), Resolve(m, es[i].referenced))
  }

  ghost function Links(es: seq<Edge>, sel: Selector): set<(ObjectId, ObjectId)> {
    ParentLinks(es, AliasesOf(es), sel)
  }

  // --------------------------------------------------------- partition walk

  /** The parent named by the earliest partition edge of `child`. */
  function FirstParent(es: seq<Edge>, m: Aliases, child: ObjectId): Option<ObjectId> {
    if es == [] then None
    else if Selects(Partitioning, es[0].kind) && Resolve(m, es[0].dependent) == child
    then Some(Resolve(m, es[0].referenced))
    else FirstParent(es[1..], m, child)
  }

  /** Resolved dependents of partition edges: the names a climb can leave. */
  ghost function Climbable(es: seq<Edge>, m: Aliases): set<ObjectId> {
    set i | 0 <= i < |es| && Selects(Partitioning, es[i].kind) :: Resolve(m, es[i].dependent)
  }

  lemma {:induction false} FirstParentIsLink(es: seq<Edge>, m: Aliases, child: ObjectId)
    ensures match FirstParent(es, m, child)
            case Some(p) => (child, p) in ParentLinks(es, m, Partitioning) && child in Climbable(es, m)
            case None => child !in Climbable(es, m) && forall p :: (child, p) !in ParentLinks(es, m, Partitioning)
  {
    if es != [] && !(Selects(Partitioning, es[0].kind) && Resolve(m, es[0].dependent) == child) {
      FirstParentIsLink(es[1..], m, child);
      assert forall i :: 0 < i < |es| ==> es[i] == es[1..][i - 1];
      assert forall i :: 0 <= i < |es[1..]| ==> es[1..][i] == es[i + 1];
    }
  }

  /** The guard's climb: reaching `child`, or walking into a cycle, rejects. */
  ghost predicate Climbs(es: seq<Edge>, m: Aliases, current: ObjectId, child: ObjectId, visited: set<ObjectId>)
    decreases Climbable(es, m) - visited
  {
    current in visited ||
    match FirstParent(es, m, current)
    case None => false
    case Some(p) =>
      p == child || (FirstParentIsLink(es, m, current); Climbs(es, m, p, child, visited + {current}))
  }

  /** What the partition guard answers. */
  ghost predicate PartitionCycle(es: seq<Edge>, parent: ObjectId, child: ObjectId) {
    var m := AliasesOf(es);
    Resolve(m, parent) == Resolve(m, child) || Climbs(es, m, Resolve(m, parent), Resolve(m, child), {})
  }

  /** What the inheritance guard answers: any ancestor path, through any parents. */
  ghost predicate InheritanceCycle(es: seq<Edge>, parent: ObjectId, child: ObjectId) {
    var m := AliasesOf(es);
    Reaches(Links(es, Inheriting), Resolve(m, parent), Resolve(m, child))
  }

  lemma {:induction false} ClimbFindsAncestor(es: seq<Edge>, m: Aliases, current: ObjectId, child: ObjectId,
                                              visited: set<ObjectId>, n: nat)
    requires SingleParent(ParentLinks(es, m, Partitioning))
    requires current != child && Path(ParentLinks(es, m, Partitioning), current, child, n)
    ensures Climbs(es, m, current, child, visited)
    decreases n
  {
    var links := ParentLinks(es, m, Partitioning);
    var z :| (current, z) in links && Path(links, z, child, n - 1);
    FirstParentIsLink(es, m, current);
    if current !in visited && z != child {
      ClimbFindsAncestor(es, m, z, child, visited + {current}, n - 1);
    }
  }

  /** A climb over acyclic ancestry only rejects when it met `child`. */
  lemma {:induction false} ClimbMeansAncestor(es: seq<Edge>, m: Aliases, current: ObjectId, child: ObjectId,
                                              visited: set<ObjectId>)
    requires Acyclic(ParentLinks(es, m, Partitioning))
    requires forall v :: v in visited ==> v != current && Reaches(ParentLinks(es, m, Partitioning), v, current)
    requires Climbs(es, m, current, child, visited)
    ensures Reaches(ParentLinks(es, m, Partitioning), current, child)
    decreases Climbable(es, m) - visited
  {
    var links := ParentLinks(es, m, Partitioning);
    FirstParentIsLink(es, m, current);
    var p := FirstParent(es, m, current).value;
    ReachesSelf(links, p);
    if p != child {
      ReachesAfterLink(links, current, p, p);
      forall v | v in visited + {current} ensures v != p && Reaches(links, v, p) {
        if v != current {
          ReachesCompose(links, v, current, p);
        }
      }
      ClimbMeansAncestor(es, m, p, child, visited + {current});
    }
    ReachesAfterLink(links, current, p, child);
  }

  /** The partition guard is exact on single-parent acyclic ancestry. */
  lemma PartitionGuardIsExact(es: seq<Edge>, parent: ObjectId, child: ObjectId)
    requires Acyclic(Links(es, Partitioning)) && SingleParent(Links(es, Partitioning))
    ensures PartitionCycle(es, parent, child) <==>
            Reaches(Links(es, Partitioning), Resolve(AliasesOf(es), parent), Resolve(AliasesOf(es), child))
  {
    var m := AliasesOf(es);
    var links := Links(es, Partitioning);
    var p, c := Resolve(m, parent), Resolve(m, child);
    if p == c {
      ReachesSelf(links, p);
    } else if Climbs(es, m, p, c, {}) {
      ClimbMeansAncestor(es, m, p, c, {});
    } else if Reaches(links, p, c) {
      var n: nat :| Path(links, p, c, n);
      ClimbFindsAncestor(es, m, p, c, {}, n);
    }
  }

  /** `n` first-parent steps up from `x`, if that many exist. */
  function Ancestor(es: seq<Edge>, m: Aliases, x: ObjectId, n: nat): Option<ObjectId>
    decreases n
  {
    if n == 0 then Some(x)
    else match FirstParent(es, m, x)
         case None => None
         case Some(p) => Ancestor(es, m, p, n - 1)
  }

  /** A climb that accepts really came to a top without meeting `child`. */
  lemma {:induction false} AcceptedClimbEnds(es: seq<Edge>, m: Aliases, current: ObjectId, child: ObjectId,
                                             visited: set<ObjectId>) returns (top: nat)
    requires !Climbs(es, m, current, child, visited)
    ensures Ancestor(es, m, current, top).None?
    ensures forall k: nat :: 1 <= k ==> Ancestor(es, m, current, k) != Some(child)
    decreases Climbable(es, m) - visited
  {
    FirstParentIsLink(es, m, current);
    match FirstParent(es, m, current) {
      case None =>
        top := 1;
      case Some(p) =>
        var rest := AcceptedClimbEnds(es, m, p, child, visited + {current});
        top := rest + 1;
        forall k: nat | 1 <= k ensures Ancestor(es, m, current, k) != Some(child) {
          assert Ancestor(es, m, current, k) == Ancestor(es, m, p, k - 1);
        }
    }
  }

  /** Malformed ancestry the climb walks into is always rejected, never looped on. */
  lemma MalformedAncestryIsRejected(es: seq<Edge>, parent: ObjectId, child: ObjectId)
    requires forall n: nat :: Ancestor(es, AliasesOf(es), Resolve(AliasesOf(es), parent), n).Some?
    ensures PartitionCycle(es, parent, child)
  {
    var m := AliasesOf(es);
    if !PartitionCycle(es, parent, child) {
      var top := AcceptedClimbEnds(es, m, Resolve(m, parent), Resolve(m, child), {});
    }
  }

  // --------------------------------------------------------- whole runs

  datatype Step =
    | Attach(child: ObjectId, parent: ObjectId)
    | Inherit(child: ObjectId, parent: ObjectId)
    | Rename(old_: ObjectId, new_: ObjectId)
    | RenameSchema(oldSchema: string, newSchema: string)
    | Remove(gone: set<Edge>)
    | AddOther(edge: Edge)

  /** The guards the analyzer consults before it takes a step. */
  ghost predicate Admitted(es: seq<Edge>, s: Step) {
    match s
    case Attach(child, parent) =>
      !PartitionCycle(es, parent, child) &&
      forall p :: (Resolve(AliasesOf(es), child), p) !in Links(es, Partitioning)
    case Inherit(child, parent) => !InheritanceCycle(es, parent, child)
    case Rename(old_, new_) => CanRename(es, old_, new_)
    case RenameSchema(_, newSchema) => Unused(es, newSchema)
    case Remove(gone) => forall e :: e in gone ==> !e.kind.RenameTo?
    case AddOther(edge) =>
      !edge.kind.RenameTo? && !Selects(Partitioning, edge.kind) && !Selects(Inheriting, edge.kind)
  }

  function Without(es: seq<Edge>, gone: set<Edge>): seq<Edge> {
    if es == [] then []
    else var n := |es| - 1; Without(es[..n], gone) + (if es[n] in gone then [] else [es[n]])
  }

  function Taken(es: seq<Edge>, s: Step): seq<Edge> {
    match s
    case Attach(child, parent) => Added(es, Edge(child, parent, PartitionOf))
    case Inherit(child, parent) => Added(es, Edge(child, parent, InheritanceOf))
    case Rename(old_, new_) => AfterRename(es, old_, new_)
    case RenameSchema(oldSchema, newSchema) => AfterSchemaRename(es, oldSchema, newSchema)
    case Remove(gone) => Without(es, gone)
    case AddOther(edge) => Added(es, edge)
  }

  ghost predicate Sound(es: seq<Edge>) {
    && Distinct(es)
    && Acyclic(Links(es, Partitioning)) && SingleParent(Links(es, Partitioning))
    && Acyclic(Links(es, Inheriting))
  }

  ghost predicate Run(start: seq<Edge>, steps: seq<Step>, end: seq<Edge>)
    decreases |steps|
  {
    if steps == [] then start == end
    else Admitted(start, steps[0]) && Run(Taken(start, steps[0]), steps[1..], end)
  }

  /** The requests the guards let through, each judged in the state the earlier ones left. */
  ghost function AdmittedOf(es: seq<Edge>, requests: seq<Step>): seq<Step>
    decreases |requests|
  {
    if requests == [] then []
    else if Admitted(es, requests[0]) then [requests[0]] + AdmittedOf(Taken(es, requests[0]), requests[1..])
    else AdmittedOf(es, requests[1..])
  }

  lemma {:induction false} WithoutIsSubset(es: seq<Edge>, gone: set<Edge>)
    ensures forall e :: e in Without(es, gone) <==> e in es && e !in gone
    ensures Distinct(es) ==> Distinct(Without(es, gone))
  {
    if es != [] {
      var n := |es| - 1;
      WithoutIsSubset(es[..n], gone);
      assert es == es[..n] + [es[n]];
    }
  }

  lemma {:induction false} WithoutKeepsAliases(es: seq<Edge>, gone: set<Edge>)
    requires forall e :: e in gone ==> !e.kind.RenameTo?
    ensures AliasesOf(Without(es, gone)) == AliasesOf(es)
  {
    if es != [] {
      var n := |es| - 1;
      WithoutKeepsAliases(es[..n], gone);
      var w := Without(es[..n], gone);
      if es[n] !in gone {
        assert (w + [es[n]])[..|w|] == w;
      } else {
        assert w + [] == w;
      }
    }
  }

  /** Adding an edge that is no alias adds at most one link. */
  lemma {:induction false} AddedLinks(es: seq<Edge>, e: Edge, sel: Selector)
    requires !e.kind.RenameTo?
    ensures AliasesOf(Added(es, e)) == AliasesOf(es)
    ensures Distinct(es) ==> Distinct(Added(es, e))
    ensures Selects(sel, e.kind) ==>
              Links(Added(es, e), sel) ==
              Links(es, sel) + {(Resolve(AliasesOf(es), e.dependent), Resolve(AliasesOf(es), e.referenced))}
    ensures !Selects(sel, e.kind) ==> Links(Added(es, e), sel) == Links(es, sel)
  {
    var m := AliasesOf(es);
    var grown := Added(es, e);
    if e !in es {
      assert grown[..|es|] == es && grown[|es|] == e;
    }
    assert forall i :: 0 <= i < |es| ==> grown[i] == es[i];
    assert e in grown;
  }

  lemma {:induction false} RemovedLinks(es: seq<Edge>, gone: set<Edge>, sel: Selector)
    requires forall e :: e in gone ==> !e.kind.RenameTo?
    ensures Links(Without(es, gone), sel) <= Links(es, sel)
  {
    WithoutIsSubset(es, gone);
    WithoutKeepsAliases(es, gone);
    var w := Without(es, gone);
    forall i | 0 <= i < |w| ensures exists j :: 0 <= j < |es| && es[j] == w[i] {
      assert w[i] in es;
    }
  }

  lemma {:induction false} LinkNamesAreUsed(es: seq<Edge>, old_: ObjectId, new_: ObjectId, sel: Selector)
    requires CanRename(es, old_, new_) && sel != Cascading
    ensures InjectiveOn(Links(es, sel), (x: ObjectId) => Moved(x, old_, new_))
  {
    var m := AliasesOf(es);
    forall i | 0 <= i < |es| && Selects(sel, es[i].kind)
      ensures Resolve(m, es[i].dependent) != new_ && Resolve(m, es[i].referenced) != new_
    {
      RenamedEndsResolve(es, old_, new_, es[i]);
    }
    assert forall x :: Touches(Links(es, sel), x) ==> x != new_;
  }

  lemma {:induction false} RenamedLinkHasSource(es: seq<Edge>, old_: ObjectId, new_: ObjectId, sel: Selector, i: nat)
    returns (a: ObjectId, b: ObjectId)
    requires CanRename(es, old_, new_) && sel != Cascading
    requires i < |AfterRename(es, old_, new_)| && Selects(sel, AfterRename(es, old_, new_)[i].kind)
    ensures var m2 := AliasesOf(es)[old_ := new_]; var r := AfterRename(es, old_, new_)[i];
            && (a, b) in Links(es, sel)
            && Resolve(m2, r.dependent) == Moved(a, old_, new_) && Resolve(m2, r.referenced) == Moved(b, old_, new_)
  {
    RenameMergesNothing(es, old_, new_);
    var after := AfterRename(es, old_, new_);
    assert i < |es| && after[i] == RelationRenamed(es[i], old_, new_);
    var e := es[i];
    assert e in es && Selects(sel, e.kind);
    RenamedEndsResolve(es, old_, new_, e);
    a, b := Resolve(AliasesOf(es), e.dependent), Resolve(AliasesOf(es), e.referenced);
    assert (a, b) in Links(es, sel);
  }

  lemma {:induction false} RenamedLinks(es: seq<Edge>, old_: ObjectId, new_: ObjectId, sel: Selector)
    requires CanRename(es, old_, new_) && sel != Cascading
    ensures IsImage(Links(es, sel), Links(AfterRename(es, old_, new_), sel), (x: ObjectId) => Moved(x, old_, new_))
  {
    RenameMergesNothing(es, old_, new_);
    var after, m2 := AfterRename(es, old_, new_), AliasesOf(es)[old_ := new_];
    forall u, v | (u, v) in ParentLinks(after, m2, sel)
      ensures exists a, b :: (a, b) in Links(es, sel) && u == Moved(a, old_, new_) && v == Moved(b, old_, new_)
    {
      var i :| 0 <= i < |after| && Selects(sel, after[i].kind) &&
               (u, v) == (Resolve(m2, after[i].dependent), Resolve(m2, after[i].referenced));
      var a, b := RenamedLinkHasSource(es, old_, new_, sel, i);
    }
  }

  lemma {:induction false} RenameKeepsAcyclic(es: seq<Edge>, old_: ObjectId, new_: ObjectId, sel: Selector)
    requires CanRename(es, old_, new_) && sel != Cascading && Acyclic(Links(es, sel))
    ensures Acyclic(Links(AfterRename(es, old_, new_), sel))
    ensures SingleParent(Links(es, sel)) ==> SingleParent(Links(AfterRename(es, old_, new_), sel))
  {
    RenamedLinks(es, old_, new_, sel);
    LinkNamesAreUsed(es, old_, new_, sel);
    ImageStaysAcyclic(Links(es, sel), Links(AfterRename(es, old_, new_), sel), (x: ObjectId) => Moved(x, old_, new_));
  }

  /** The ends of an ancestry edge resolve to the remapped image of where they resolved before. */
  lemma {:induction false} RemappedEndsResolve(es: seq<Edge>, old_: string, new_: string, i: nat)
    requires Unused(es, new_) && i < |es| && Selects(Cascading, es[i].kind)
    ensures var m := AliasesOf(es); var e := es[i]; var r := SchemaRemapped(e, old_, new_);
            var m2 := AliasesOf(Mapped(es, e => SchemaRemapped(e, old_, new_)));
            && r.kind == e.kind
            && Resolve(m, e.dependent).schema != new_ && Resolve(m, e.referenced).schema != new_
            && Resolve(m2, r.dependent) == Remap(Resolve(m, e.dependent), old_, new_)
            && Resolve(m2, r.referenced) == Remap(Resolve(m, e.referenced), old_, new_)
  {
    var m, m2 := AliasesOf(es), AliasesOf(Mapped(es, e => SchemaRemapped(e, old_, new_)));
    SchemaRenameMapsAliases(es, old_, new_);
    assert es[i] in es && Avoids(es[i], new_);
    ResolveAfterSchemaRename(m, m2, old_, new_, es[i].dependent);
    ResolveAfterSchemaRename(m, m2, old_, new_, es[i].referenced);
  }

  lemma {:induction false} SchemaRenamedLinks(es: seq<Edge>, old_: string, new_: string, sel: Selector)
    requires Distinct(es) && Unused(es, new_) && sel != Cascading
    ensures IsImage(Links(es, sel), Links(AfterSchemaRename(es, old_, new_), sel), (x: ObjectId) => Remap(x, old_, new_))
  {
    SchemaRenameMergesNothing(es, old_, new_);
    var after, m := AfterSchemaRename(es, old_, new_), AliasesOf(es);
    var m2 := AliasesOf(after);
    forall u, v | (u, v) in ParentLinks(after, m2, sel)
      ensures exists a, b :: (a, b) in Links(es, sel) && u == Remap(a, old_, new_) && v == Remap(b, old_, new_)
    {
      var i :| 0 <= i < |after| && Selects(sel, after[i].kind) &&
               (u, v) == (Resolve(m2, after[i].dependent), Resolve(m2, after[i].referenced));
      assert after[i] == SchemaRemapped(es[i], old_, new_);
      RemappedEndsResolve(es, old_, new_, i);
      assert (Resolve(m, es[i].dependent), Resolve(m, es[i].referenced)) in Links(es, sel);
    }
  }

  lemma {:induction false} SchemaLinksAreApart(es: seq<Edge>, old_: string, new_: string, sel: Selector)
    requires Unused(es, new_) && sel != Cascading
    ensures InjectiveOn(Links(es, sel), (x: ObjectId) => Remap(x, old_, new_))
  {
    var m := AliasesOf(es);
    forall i | 0 <= i < |es| && Selects(sel, es[i].kind)
      ensures Resolve(m, es[i].dependent).schema != new_ && Resolve(m, es[i].referenced).schema != new_
    {
      RemappedEndsResolve(es, old_, new_, i);
    }
  }

  lemma {:induction false} SchemaRenameKeepsAcyclic(es: seq<Edge>, old_: string, new_: string, sel: Selector)
    requires Distinct(es) && Unused(es, new_) && sel != Cascading && Acyclic(Links(es, sel))
    ensures Acyclic(Links(AfterSchemaRename(es, old_, new_), sel))
    ensures SingleParent(Links(es, sel)) ==> SingleParent(Links(AfterSchemaRename(es, old_, new_), sel))
  {
    SchemaRenamedLinks(es, old_, new_, sel);
    SchemaLinksAreApart(es, old_, new_, sel);
    ImageStaysAcyclic(Links(es, sel), Links(AfterSchemaRename(es, old_, new_), sel), (x: ObjectId) => Remap(x, old_, new_));
  }

  /** Every admitted step keeps both ancestries acyclic and partitions single-parent. */
  lemma {:induction false} StepKeepsSound(es: seq<Edge>, s: Step)
    requires Sound(es) && Admitted(es, s)
    ensures Sound(Taken(es, s))
  {
    var m := AliasesOf(es);
    match s {
      case Attach(child, parent) =>
        AttachKeepsSound(es, child, parent);
      case Inherit(child, parent) =>
        var e := Edge(child, parent, InheritanceOf);
        AddedLinks(es, e, Partitioning);
        AddedLinks(es, e, Inheriting);
        NewLinkStaysAcyclic(Links(es, Inheriting), Resolve(m, child), Resolve(m, parent));
      case Rename(old_, new_) =>
        RenameMergesNothing(es, old_, new_);
        RenameKeepsAcyclic(es, old_, new_, Partitioning);
        RenameKeepsAcyclic(es, old_, new_, Inheriting);
      case RenameSchema(oldSchema, newSchema) =>
        DedupKeepsElements(Mapped(es, e => SchemaRemapped(e, oldSchema, newSchema)));
        SchemaRenameKeepsAcyclic(es, oldSchema, newSchema, Partitioning);
        SchemaRenameKeepsAcyclic(es, oldSchema, newSchema, Inheriting);
      case Remove(gone) =>
        WithoutIsSubset(es, gone);
        RemovedLinks(es, gone, Partitioning);
        RemovedLinks(es, gone, Inheriting);
        SubsetStaysAcyclic(Links(Without(es, gone), Partitioning), Links(es, Partitioning));
        SubsetStaysAcyclic(Links(Without(es, gone), Inheriting), Links(es, Inheriting));
      case AddOther(edge) =>
        AddedLinks(es, edge, Partitioning);
        AddedLinks(es, edge, Inheriting);
    }
  }

  lemma {:induction false} AttachKeepsSound(es: seq<Edge>, child: ObjectId, parent: ObjectId)
    requires Sound(es) && Admitted(es, Attach(child, parent))
    ensures Sound(Taken(es, Attach(child, parent)))
  {
    var m := AliasesOf(es);
    var e := Edge(child, parent, PartitionOf);
    var links := Links(es, Partitioning);
    var c, p := Resolve(m, child), Resolve(m, parent);
    AddedLinks(es, e, Partitioning);
    AddedLinks(es, e, Inheriting);
    PartitionGuardIsExact(es, parent, child);
    NewLinkStaysAcyclic(links, c, p);
  }

  /** Over every run of admitted steps both ancestries stay acyclic. */
  lemma {:induction false} RunsStayAcyclic(start: seq<Edge>, steps: seq<Step>, end: seq<Edge>)
    requires Sound(start) && Run(start, steps, end)
    ensures Sound(end)
    decreases |steps|
  {
    if steps != [] {
      StepKeepsSound(start, steps[0]);
      RunsStayAcyclic(Taken(start, steps[0]), steps[1..], end);
    }
  }

  lemma {:induction false} RunExtends(start: seq<Edge>, steps: seq<Step>, end: seq<Edge>, s: Step)
    requires Run(start, steps, end) && Admitted(end, s)
    ensures Run(start, steps + [s], Taken(end, s))
    decreases |steps|
  {
    var longer := steps + [s];
    if steps == [] {
      assert longer[0] == s && longer[1..] == [];
    } else {
      assert longer[0] == steps[0] && longer[1..] == steps[1..] + [s];
      RunExtends(Taken(start, steps[0]), steps[1..], end, s);
    }
  }

  lemma EmptyGraphIsSound()
    ensures Sound([])
  {
    assert Links([], Partitioning) == {} && Links([], Inheriting) == {};
  }
}
