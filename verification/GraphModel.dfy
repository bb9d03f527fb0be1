/** Typed dependency edges, rename aliases and what the lookups mean. */
module GraphModel {
  import opened Collections
  import opened Identifiers
  import opened IndexDefinitions

  datatype ForeignKeyOperatorEvidence = ForeignKeyOperatorEvidence(pkFk: seq<string>, pkPk: seq<string>, fkFk: seq<string>)

  datatype DependencyKind =
    | ForeignKey(constraintName: Option<string>, fromColumns: seq<string>, toColumns: seq<string>,
                 operatorEvidence: Option<ForeignKeyOperatorEvidence>, fromGeneration: nat)
    | ViewDependency(viewGeneration: nat, referencedColumn: Option<string>)
    | ViewUsesRoutine(unresolvedName: Option<ObjectId>)
    | ViewUsesType
    | IndexOnRelation(definition: IndexDefinition, dependencyColumns: seq<string>, dependencyColumnsKnown: bool,
                      isConcurrent: bool, isImmediate: bool, eligibilityKnown: bool)
    | ConstraintOnRelation(name: string, columns: seq<string>, isPrimary: bool)
    | ConstraintDependency(dependencyName: string, dependencyOn: seq<string>)
    | RenameTo
    | InheritanceOf
    | PartitionOf
    | IndexPartitionOf
    | PartitionDetachPending
    | SequenceOwnedBy(ownedColumn: string)
    | ColumnGeneratedFrom(generatedColumn: string, dependsOnColumn: string)
    | ColumnDefaultOnSequence(defaultColumn: string)
    | TriggerOnTable(triggerId: ObjectId, functionId: ObjectId, triggerGeneration: nat)
    | PublicationIncludes(publicationName: string)

  datatype Edge = Edge(dependent: ObjectId, referenced: ObjectId, kind: DependencyKind)

  // ---------------------------------------------------------------- aliases

  type Aliases = map<ObjectId, ObjectId>

  /** Old name to new name; the earliest recorded rename of a name decides. */
  function AliasesOf(es: seq<Edge>): Aliases {
    if es == [] then map[]
    else
      var n := |es| - 1;
      var m := AliasesOf(es[..n]);
      if es[n].kind.RenameTo? && es[n].dependent !in m then m[es[n].dependent := es[n].referenced] else m
  }

  /** Follow aliases from `current`; a revisited name means `start` is its own end. */
  function Walk(m: Aliases, start: ObjectId, current: ObjectId, visited: set<ObjectId>): ObjectId
    decreases m.Keys - visited
  {
    if current in visited then start
    else if current in m then Walk(m, start, m[current], visited + {current})
    else current
  }

  function Resolve(m: Aliases, id: ObjectId): ObjectId {
    Walk(m, id, id, {})
  }

  /** Independent reading of an alias chain: exactly `n` renames on from `id`. */
  function Follow(m: Aliases, id: ObjectId, n: nat): Option<ObjectId>
    decreases n
  {
    if n == 0 then Some(id)
    else if id in m then Follow(m, m[id], n - 1)
    else None
  }

  ghost predicate EndsAt(m: Aliases, id: ObjectId, end: ObjectId) {
    end !in m && exists n: nat :: Follow(m, id, n) == Some(end)
  }

  lemma {:induction false} EndDistanceIsUnique(m: Aliases, id: ObjectId, end: ObjectId, a: nat, b: nat)
    requires end !in m && Follow(m, id, a) == Some(end) && Follow(m, id, b) == Some(end)
    ensures a == b
    decreases a
  {
    if a > 0 && b > 0 {
      EndDistanceIsUnique(m, m[id], end, a - 1, b - 1);
    }
  }

  /** Every name already visited lies strictly further from the end. */
  ghost predicate FurtherAway(m: Aliases, visited: set<ObjectId>, end: ObjectId, n: nat) {
    forall v :: v in visited ==> exists k: nat :: k > n && Follow(m, v, k) == Some(end)
  }

  lemma {:induction false} WalkReachesEnd(m: Aliases, start: ObjectId, current: ObjectId, visited: set<ObjectId>,
                                          end: ObjectId, n: nat)
    requires end !in m && Follow(m, current, n) == Some(end) && FurtherAway(m, visited, end, n)
    ensures Walk(m, start, current, visited) == end
    decreases n
  {
    if current in visited {
      var k: nat :| k > n && Follow(m, current, k) == Some(end);
      EndDistanceIsUnique(m, current, end, n, k);
    }
    if n > 0 {
      WalkReachesEnd(m, start, m[current], visited + {current}, end, n - 1);
    }
  }

  lemma {:induction false} WalkResult(m: Aliases, start: ObjectId, current: ObjectId, visited: set<ObjectId>)
    ensures Walk(m, start, current, visited) == start || EndsAt(m, current, Walk(m, start, current, visited))
    decreases m.Keys - visited
  {
    if current !in visited {
      if current in m {
        WalkResult(m, start, m[current], visited + {current});
        var r := Walk(m, start, m[current], visited + {current});
        if r != start {
          var n: nat :| Follow(m, m[current], n) == Some(r);
          assert Follow(m, current, n + 1) == Some(r);
        }
      } else {
        assert Follow(m, current, 0) == Some(current);
      }
    }
  }

  /** A name resolves to the end of its alias chain, and to itself exactly when
      the chain has no end, that is when it runs into a rename cycle. */
  lemma ResolveMeaning(m: Aliases, id: ObjectId, r: ObjectId)
    ensures Resolve(m, id) == r <==> EndsAt(m, id, r) || (r == id && !exists e :: EndsAt(m, id, e))
  {
    WalkResult(m, id, id, {});
    forall e | EndsAt(m, id, e) ensures Resolve(m, id) == e {
      var n: nat :| Follow(m, id, n) == Some(e);
      WalkReachesEnd(m, id, id, {}, e, n);
    }
  }

  lemma TerminalResolvesToItself(m: Aliases, id: ObjectId)
    requires id !in m
    ensures Resolve(m, id) == id
  {
  }

  // ---------------------------------------------------------------- indexes

  /** Earliest rename edge of every renamed name. */
  function FirstRename(es: seq<Edge>): (r: map<ObjectId, nat>) {
    if es == [] then map[]
    else
      var n := |es| - 1;
      var m := FirstRename(es[..n]);
      if es[n].kind.RenameTo? && es[n].dependent !in m then m[es[n].dependent := n] else m
  }

  lemma {:induction false} FirstRenameIsRename(es: seq<Edge>)
    ensures FirstRename(es).Keys == AliasesOf(es).Keys
    ensures forall k :: k in FirstRename(es) ==>
              FirstRename(es)[k] < |es| && es[FirstRename(es)[k]] == Edge(k, AliasesOf(es)[k], RenameTo)
  {
    if es != [] {
      FirstRenameIsRename(es[..|es| - 1]);
    }
  }

  lemma {:induction false} FirstRenameIsEarliest(es: seq<Edge>, j: nat)
    requires j < |es| && es[j].kind.RenameTo?
    ensures es[j].dependent in FirstRename(es) && FirstRename(es)[es[j].dependent] <= j
  {
    var n := |es| - 1;
    if j < n {
      FirstRenameIsEarliest(es[..n], j);
    } else {
      FirstRenameIsRename(es[..n]);
    }
  }

  /** The index lookup and the alias map tell the same story: every renamed name is found at
      its earliest rename edge. */
  lemma {:induction false} FirstRenameIsAlias(es: seq<Edge>)
    ensures FirstRename(es).Keys == AliasesOf(es).Keys
    ensures forall k :: k in FirstRename(es) ==>
              FirstRename(es)[k] < |es| && es[FirstRename(es)[k]] == Edge(k, AliasesOf(es)[k], RenameTo)
    ensures forall j :: 0 <= j < |es| && es[j].kind.RenameTo? ==>
              es[j].dependent in FirstRename(es) && FirstRename(es)[es[j].dependent] <= j
  {
    FirstRenameIsRename(es);
    forall j | 0 <= j < |es| && es[j].kind.RenameTo?
      ensures es[j].dependent in FirstRename(es) && FirstRename(es)[es[j].dependent] <= j
    {
      FirstRenameIsEarliest(es, j);
    }
  }

  /** Positions, in order, of the first `n` edges whose referenced end resolves to `target`. */
  function Positions(es: seq<Edge>, m: Aliases, target: ObjectId, n: nat): (r: seq<nat>)
    requires n <= |es|
    ensures forall i :: 0 <= i < |r| ==> r[i] < n
  {
    if n == 0 then []
    else Positions(es, m, target, n - 1) + (if Resolve(m, es[n - 1].referenced) == target then [n - 1] else [])
  }

  function ResolvedPositions(es: seq<Edge>, m: Aliases, n: nat): map<ObjectId, seq<nat>>
    requires n <= |es|
  {
    if n == 0 then map[]
    else
      var p := ResolvedPositions(es, m, n - 1);
      var t := Resolve(m, es[n - 1].referenced);
      p[t := (if t in p then p[t] else []) + [n - 1]]
  }

  lemma {:induction false} ResolvedPositionsLookup(es: seq<Edge>, m: Aliases, target: ObjectId, n: nat)
    requires n <= |es|
    ensures var p := ResolvedPositions(es, m, n);
            Positions(es, m, target, n) == if target in p then p[target] else []
  {
    if n > 0 {
      ResolvedPositionsLookup(es, m, target, n - 1);
    }
  }

  datatype GraphIndexes = GraphIndexes(renameBySource: map<ObjectId, nat>,
                                       byResolvedReferenced: map<ObjectId, seq<nat>>)

  function IndexesOf(es: seq<Edge>): GraphIndexes {
    GraphIndexes(FirstRename(es), ResolvedPositions(es, AliasesOf(es), |es|))
  }

  // ---------------------------------------------------------------- lookups

  datatype Selector = Cascading | Partitioning | Inheriting

  predicate Selects(sel: Selector, kind: DependencyKind) {
    match sel
    case Cascading =>
      kind.ViewDependency? || kind.IndexOnRelation? || kind.ForeignKey? || kind.InheritanceOf? ||
      kind.PartitionOf? || kind.PartitionDetachPending?
    case Partitioning => kind.PartitionOf? || kind.PartitionDetachPending?
    case Inheriting => kind.InheritanceOf?
  }

  /** Scan: the selected edges, in order, whose referenced end resolves to `target`. */
  function Selected(es: seq<Edge>, m: Aliases, target: ObjectId, sel: Selector): seq<Edge> {
    if es == [] then []
    else
      var n := |es| - 1;
      Selected(es[..n], m, target, sel) +
      (if Selects(sel, es[n].kind) && Resolve(m, es[n].referenced) == target then [es[n]] else [])
  }

  /** Lookup: the selected edges among the given positions. */
  function Picked(es: seq<Edge>, positions: seq<nat>, sel: Selector): seq<Edge>
    requires forall i :: 0 <= i < |positions| ==> positions[i] < |es|
  {
    if positions == [] then []
    else
      var n := |positions| - 1;
      Picked(es, positions[..n], sel) + (if Selects(sel, es[positions[n]].kind) then [es[positions[n]]] else [])
  }

  lemma PickedGrows(es: seq<Edge>, positions: seq<nat>, k: nat, sel: Selector)
    requires k < |es| && forall i :: 0 <= i < |positions| ==> positions[i] < |es|
    ensures Picked(es, positions + [k], sel) == Picked(es, positions, sel) + (if Selects(sel, es[k].kind) then [es[k]] else [])
  {
    assert (positions + [k])[..|positions|] == positions;
  }

  lemma SelectedGrows(es: seq<Edge>, m: Aliases, target: ObjectId, sel: Selector, n: nat)
    requires n < |es|
    ensures Selected(es[..n + 1], m, target, sel) == Selected(es[..n], m, target, sel) +
            (if Selects(sel, es[n].kind) && Resolve(m, es[n].referenced) == target then [es[n]] else [])
  {
    assert es[..n + 1][..n] == es[..n];
  }

  /** The indexed lookup and the scan return the same edges in the same order. */
  lemma {:induction false} PickedIsSelected(es: seq<Edge>, m: Aliases, target: ObjectId, sel: Selector, n: nat)
    requires n <= |es|
    ensures Picked(es, Positions(es, m, target, n), sel) == Selected(es[..n], m, target, sel)
  {
    if n > 0 {
      PickedIsSelected(es, m, target, sel, n - 1);
      SelectedGrows(es, m, target, sel, n - 1);
      PickedGrows(es, Positions(es, m, target, n - 1), n - 1, sel);
      assert Positions(es, m, target, n - 1) + [] == Positions(es, m, target, n - 1);
    }
  }

  function ResolvedDependents(es: seq<Edge>, m: Aliases): seq<ObjectId> {
    seq(|es|, i requires 0 <= i < |es| => Resolve(m, es[i].dependent))
  }

  function CascadeEdgesOf(es: seq<Edge>, id: ObjectId): seq<Edge> {
    Selected(es, AliasesOf(es), Resolve(AliasesOf(es), id), Cascading)
  }

  function PartitionsOf(es: seq<Edge>, id: ObjectId): seq<ObjectId> {
    ResolvedDependents(Selected(es, AliasesOf(es), Resolve(AliasesOf(es), id), Partitioning), AliasesOf(es))
  }
}
