/** Relation renames and schema renames: every lookup answers with the renamed
    image of what it answered before. */
module GraphRename {
  import opened Collections
  import opened Identifiers
  import opened GraphModel

  /** Rewriting all edges carries a scan to the rewritten image of its answer. */
  lemma {:induction false} SelectedImage(es: seq<Edge>, m: Aliases, m2: Aliases, target: ObjectId, target2: ObjectId,
                                         sel: Selector, f: Edge -> Edge)
    requires forall e :: e in es ==> Selects(sel, f(e).kind) == Selects(sel, e.kind)
    requires forall e :: e in es && Selects(sel, e.kind) ==>
               (Resolve(m2, f(e).referenced) == target2 <==> Resolve(m, e.referenced) == target)
    ensures Selected(Mapped(es, f), m2, target2, sel) == Mapped(Selected(es, m, target, sel), f)
  {
    if es != [] {
      var n := |es| - 1;
      assert Mapped(es, f)[..n] == Mapped(es[..n], f);
      SelectedImage(es[..n], m, m2, target, target2, sel, f);
      assert es[n] in es;
    }
  }

  lemma {:induction false} SelectedAreEdges(es: seq<Edge>, m: Aliases, target: ObjectId, sel: Selector)
    ensures forall e :: e in Selected(es, m, target, sel) ==> e in es && Selects(sel, e.kind)
  {
    if es != [] {
      SelectedAreEdges(es[..|es| - 1], m, target, sel);
    }
  }

  // --------------------------------------------------------- relation rename

  function Moved(id: ObjectId, old_: ObjectId, new_: ObjectId): ObjectId {
    if id == old_ then new_ else id
  }

  /** One edge after a relation rename: which ends move depends on the kind. */
  function RelationRenamed(e: Edge, old_: ObjectId, new_: ObjectId): Edge {
    match e.kind
    case RenameTo => e
    case IndexPartitionOf => e
    case ForeignKey(_, _, _, _, _) | ViewDependency(_, _) | InheritanceOf | PartitionOf | PartitionDetachPending
       | ConstraintDependency(_, _) | ColumnGeneratedFrom(_, _) | ConstraintOnRelation(_, _, _) =>
      e.(dependent := Moved(e.dependent, old_, new_), referenced := Moved(e.referenced, old_, new_))
    case ViewUsesRoutine(_) | ViewUsesType | ColumnDefaultOnSequence(_) | PublicationIncludes(_) =>
      e.(dependent := Moved(e.dependent, old_, new_))
    case IndexOnRelation(_, _, _, _, _, _) | SequenceOwnedBy(_) | TriggerOnTable(_, _, _) =>
      e.(referenced := Moved(e.referenced, old_, new_))
  }

  function RenamedAll(es: seq<Edge>, old_: ObjectId, new_: ObjectId): seq<Edge> {
    Mapped(es, e => RelationRenamed(e, old_, new_))
  }

  function Added(es: seq<Edge>, e: Edge): seq<Edge> {
    if e in es then es else es + [e]
  }

  /** What the analyzer does for `ALTER ... RENAME`: rewrite, then record the alias. */
  function AfterRename(es: seq<Edge>, old_: ObjectId, new_: ObjectId): seq<Edge> {
    Added(Dedup(RenamedAll(es, old_, new_)), Edge(old_, new_, RenameTo))
  }

  /** No edge other than an alias has an end written `id`. */
  predicate EndsAvoid(es: seq<Edge>, id: ObjectId) {
    forall e :: e in es && !e.kind.RenameTo? ==> e.dependent != id && e.referenced != id
  }

  /** No edge other than an alias has an end that denotes `id`. */
  predicate EndsMiss(es: seq<Edge>, id: ObjectId) {
    var m := AliasesOf(es);
    forall e :: e in es && !e.kind.RenameTo? ==> Resolve(m, e.dependent) != id && Resolve(m, e.referenced) != id
  }

  /** `old` is a current name, and no object with dependencies is written `new`. */
  predicate Renamable(es: seq<Edge>, old_: ObjectId, new_: ObjectId) {
    Distinct(es) && old_ !in AliasesOf(es) && old_ != new_ && EndsAvoid(es, new_)
  }

  /** In addition `new` was never renamed away, and no dependency leads to it. */
  predicate CanRename(es: seq<Edge>, old_: ObjectId, new_: ObjectId) {
    Renamable(es, old_, new_) && new_ !in AliasesOf(es) && EndsMiss(es, new_)
  }

  lemma {:induction false} RenamingKeepsAliases(es: seq<Edge>, old_: ObjectId, new_: ObjectId)
    ensures AliasesOf(RenamedAll(es, old_, new_)) == AliasesOf(es)
  {
    if es != [] {
      var n := |es| - 1;
      assert RenamedAll(es, old_, new_)[..n] == RenamedAll(es[..n], old_, new_);
      RenamingKeepsAliases(es[..n], old_, new_);
    }
  }

  lemma {:induction false} AliasEdgesAreAliases(es: seq<Edge>, e: Edge)
    requires e in es && e.kind.RenameTo?
    ensures e.dependent in AliasesOf(es)
  {
    var n := |es| - 1;
    if e in es[..n] {
      AliasEdgesAreAliases(es[..n], e);
    }
  }

  lemma {:induction false} RenamedStayDistinct(es: seq<Edge>, old_: ObjectId, new_: ObjectId)
    requires Renamable(es, old_, new_)
    ensures Distinct(RenamedAll(es, old_, new_)) && Edge(old_, new_, RenameTo) !in RenamedAll(es, old_, new_)
    ensures AliasesOf(RenamedAll(es, old_, new_)) == AliasesOf(es)
  {
    MappedStaysDistinct(es, e => RelationRenamed(e, old_, new_));
    RenamingKeepsAliases(es, old_, new_);
    var r, alias := RenamedAll(es, old_, new_), Edge(old_, new_, RenameTo);
    if alias in r {
      AliasEdgesAreAliases(r, alias);
    }
  }

  lemma {:induction false} AliasIsAppended(es: seq<Edge>, alias: Edge)
    requires Distinct(es) && alias !in es && alias.kind.RenameTo? && alias.dependent !in AliasesOf(es)
    ensures Added(es, alias) == es + [alias] && Distinct(es + [alias])
    ensures AliasesOf(es + [alias]) == AliasesOf(es)[alias.dependent := alias.referenced]
  {
    DistinctGrows(es, alias);
    AliasesGrow(es + [alias], es, alias);
  }

  lemma {:induction false} AliasesGrow(all: seq<Edge>, es: seq<Edge>, alias: Edge)
    requires all == es + [alias] && alias.kind.RenameTo? && alias.dependent !in AliasesOf(es)
    ensures AliasesOf(all) == AliasesOf(es)[alias.dependent := alias.referenced]
  {
    var n := |all| - 1;
    assert all[..n] == es && all[n] == alias;
  }

  /** Renaming to a fresh name merges no edges and only appends the alias. */
  lemma {:induction false} RenameMergesNothing(es: seq<Edge>, old_: ObjectId, new_: ObjectId)
    requires Renamable(es, old_, new_)
    ensures AfterRename(es, old_, new_) == RenamedAll(es, old_, new_) + [Edge(old_, new_, RenameTo)]
    ensures Distinct(AfterRename(es, old_, new_))
    ensures AliasesOf(AfterRename(es, old_, new_)) == AliasesOf(es)[old_ := new_]
  {
    var r, alias := RenamedAll(es, old_, new_), Edge(old_, new_, RenameTo);
    RenamedStayDistinct(es, old_, new_);
    DedupOfDistinct(r);
    AliasIsAppended(r, alias);
  }

  /** Kinds whose dependent end is a relation, and kinds whose referenced end is one. */
  predicate DependentIsRelation(kind: DependencyKind) {
    !(kind.IndexOnRelation? || kind.SequenceOwnedBy? || kind.TriggerOnTable? || kind.IndexPartitionOf? || kind.RenameTo?)
  }

  predicate ReferencedIsRelation(kind: DependencyKind) {
    !(kind.ViewUsesRoutine? || kind.ViewUsesType? || kind.ColumnDefaultOnSequence? || kind.PublicationIncludes? ||
      kind.IndexPartitionOf? || kind.RenameTo?)
  }

  /** After the rename no relation end is written with the old name; ends of other families
      and ends with other names keep theirs, and every edge keeps its kind and its place. */
  lemma {:induction false} OldNameIsGone(es: seq<Edge>, old_: ObjectId, new_: ObjectId, i: nat)
    requires Renamable(es, old_, new_) && i < |es|
    ensures i < |AfterRename(es, old_, new_)|
    ensures var e, r := es[i], AfterRename(es, old_, new_)[i];
            && r.kind == e.kind
            && (DependentIsRelation(e.kind) ==> r.dependent != old_)
            && (ReferencedIsRelation(e.kind) ==> r.referenced != old_)
            && (!DependentIsRelation(e.kind) || e.dependent != old_ ==> r.dependent == e.dependent)
            && (!ReferencedIsRelation(e.kind) || e.referenced != old_ ==> r.referenced == e.referenced)
            && r.dependent in {e.dependent, new_} && r.referenced in {e.referenced, new_}
  {
    RenameMergesNothing(es, old_, new_);
    assert AfterRename(es, old_, new_)[i] == RelationRenamed(es[i], old_, new_);
    EndsOfRenamed(es[i], old_, new_);
  }

  lemma EndsOfRenamed(e: Edge, old_: ObjectId, new_: ObjectId)
    ensures var r := RelationRenamed(e, old_, new_);
            && r.kind == e.kind
            && r.dependent == (if DependentIsRelation(e.kind) then Moved(e.dependent, old_, new_) else e.dependent)
            && r.referenced == (if ReferencedIsRelation(e.kind) then Moved(e.referenced, old_, new_) else e.referenced)
  {
  }

  // --------------------------------------------------------- names after a rename

  lemma {:induction false} FollowInLarger(m: Aliases, m2: Aliases, id: ObjectId, n: nat)
    requires m.Keys <= m2.Keys && (forall k :: k in m ==> m2[k] == m[k]) && Follow(m, id, n).Some?
    ensures Follow(m2, id, n) == Follow(m, id, n)
    decreases n
  {
    if n > 0 {
      FollowInLarger(m, m2, m[id], n - 1);
    }
  }

  lemma {:induction false} FollowAdds(m: Aliases, id: ObjectId, a: nat, b: nat)
    requires Follow(m, id, a).Some?
    ensures Follow(m, id, a + b) == Follow(m, Follow(m, id, a).value, b)
    decreases a
  {
    if a > 0 {
      FollowAdds(m, m[id], a - 1, b);
    }
  }

  /** A chain that stops has an end. */
  lemma {:induction false} StoppedChainEnds(m: Aliases, id: ObjectId, n: nat) returns (end: ObjectId)
    requires Follow(m, id, n).None?
    ensures EndsAt(m, id, end)
    decreases n
  {
    if id !in m {
      end := id;
      assert Follow(m, id, 0) == Some(id);
    } else {
      end := StoppedChainEnds(m, m[id], n - 1);
      var k: nat :| Follow(m, m[id], k) == Some(end);
      assert Follow(m, id, k + 1) == Some(end);
    }
  }

  lemma EndInSmaller(m: Aliases, m2: Aliases, id: ObjectId, e: ObjectId) returns (end: ObjectId)
    requires m.Keys <= m2.Keys && (forall k :: k in m ==> m2[k] == m[k]) && EndsAt(m2, id, e)
    ensures EndsAt(m, id, end)
  {
    var n: nat :| Follow(m2, id, n) == Some(e);
    if Follow(m, id, n).None? {
      end := StoppedChainEnds(m, id, n);
    } else {
      FollowInLarger(m, m2, id, n);
      end := e;
    }
  }

  lemma CycleHasNoEnd(m: Aliases, id: ObjectId, n: nat, end: ObjectId)
    requires n > 0 && Follow(m, id, n) == Some(id)
    ensures !EndsAt(m, id, end)
  {
    if EndsAt(m, id, end) {
      var k: nat :| Follow(m, id, k) == Some(end);
      FollowAdds(m, id, n, k);
      EndDistanceIsUnique(m, id, end, k, n + k);
    }
  }

  /** A name that did not denote `old` keeps its meaning. */
  lemma OtherNamesStay(m: Aliases, old_: ObjectId, new_: ObjectId, id: ObjectId)
    requires old_ !in m && Resolve(m, id) != old_
    ensures Resolve(m[old_ := new_], id) == Resolve(m, id)
  {
    var m2, r := m[old_ := new_], Resolve(m, id);
    ResolveMeaning(m, id, r);
    ResolveMeaning(m2, id, r);
    if EndsAt(m, id, r) {
      var n: nat :| Follow(m, id, n) == Some(r);
      FollowInLarger(m, m2, id, n);
    } else {
      forall e ensures !EndsAt(m2, id, e) {
        if EndsAt(m2, id, e) {
          var end := EndInSmaller(m, m2, id, e);
        }
      }
    }
  }

  /** A name that denoted `old` denotes `new` exactly when `new` was never renamed away, or
      is that name itself, renamed back to. */
  lemma OldNamesMove(m: Aliases, old_: ObjectId, new_: ObjectId, id: ObjectId)
    requires old_ !in m && old_ != new_ && Resolve(m, id) == old_
    ensures Resolve(m[old_ := new_], id) == new_ <==> new_ !in m || id == new_
  {
    var m2 := m[old_ := new_];
    ResolveMeaning(m, id, old_);
    assert Follow(m, old_, 0) == Some(old_);
    var n: nat :| Follow(m, id, n) == Some(old_);
    FollowInLarger(m, m2, id, n);
    FollowAdds(m2, id, n, 1);
    assert Follow(m2, old_, 1) == Follow(m2, new_, 0) == Some(new_);
    ResolveMeaning(m2, id, new_);
    if new_ in m && id == new_ {
      forall e ensures !EndsAt(m2, id, e) {
        CycleHasNoEnd(m2, id, n + 1, e);
      }
    }
  }

  /** Renaming to a name never renamed away moves exactly the names of `old`. */
  lemma ResolveAfterRename(m: Aliases, old_: ObjectId, new_: ObjectId, id: ObjectId)
    requires old_ !in m && new_ !in m && old_ != new_
    ensures Resolve(m[old_ := new_], id) == Moved(Resolve(m, id), old_, new_)
  {
    if Resolve(m, id) == old_ {
      OldNamesMove(m, old_, new_, id);
    } else {
      OtherNamesStay(m, old_, new_, id);
    }
  }

  lemma {:induction false} DedupKeepsAliases(es: seq<Edge>)
    ensures AliasesOf(Dedup(es)) == AliasesOf(es)
  {
    if es != [] {
      var n := |es| - 1;
      var front, e := es[..n], es[n];
      DedupKeepsAliases(front);
      if e in front {
        if e.kind.RenameTo? {
          AliasEdgesAreAliases(front, e);
        }
      } else {
        var d := Dedup(front) + [e];
        assert Dedup(es) == d && d[..|d| - 1] == Dedup(front) && d[|d| - 1] == e;
      }
    }
  }

  /** The earliest rename of a name decides, so renaming a name a second time records nothing. */
  lemma {:induction false} AliasesAfterRename(es: seq<Edge>, old_: ObjectId, new_: ObjectId)
    ensures var m := AliasesOf(es);
            AliasesOf(AfterRename(es, old_, new_)) == if old_ in m then m else m[old_ := new_]
  {
    var d, alias := Dedup(RenamedAll(es, old_, new_)), Edge(old_, new_, RenameTo);
    DedupKeepsAliases(RenamedAll(es, old_, new_));
    RenamingKeepsAliases(es, old_, new_);
    AliasesAfterAdding(d, alias);
  }

  lemma {:induction false} AliasesAfterAdding(es: seq<Edge>, alias: Edge)
    requires alias.kind.RenameTo?
    ensures var m := AliasesOf(es);
            AliasesOf(Added(es, alias)) == if alias.dependent in m then m else m[alias.dependent := alias.referenced]
  {
    if alias in es {
      AliasEdgesAreAliases(es, alias);
    } else if alias.dependent in AliasesOf(es) {
      SecondRename(es + [alias], es, alias);
    } else {
      AliasesGrow(es + [alias], es, alias);
    }
  }

  lemma {:induction false} SecondRename(all: seq<Edge>, es: seq<Edge>, alias: Edge)
    requires all == es + [alias] && alias.dependent in AliasesOf(es)
    ensures AliasesOf(all) == AliasesOf(es)
  {
    var n := |all| - 1;
    assert all[..n] == es && all[n] == alias;
  }

  /** For any graph and any two names: a name resolves to the moved image of what it denoted
      exactly when it did not denote `old`, or `old` is renamed for the first time and `new`
      was never renamed away or is the very name asked for. */
  lemma NamesAfterAnyRename(es: seq<Edge>, old_: ObjectId, new_: ObjectId, id: ObjectId)
    requires old_ != new_
    ensures var m := AliasesOf(es);
            Resolve(AliasesOf(AfterRename(es, old_, new_)), id) == Moved(Resolve(m, id), old_, new_) <==>
            Resolve(m, id) != old_ || (old_ !in m && (new_ !in m || id == new_))
  {
    var m := AliasesOf(es);
    AliasesAfterRename(es, old_, new_);
    if old_ !in m {
      if Resolve(m, id) == old_ {
        OldNamesMove(m, old_, new_, id);
      } else {
        OtherNamesStay(m, old_, new_, id);
      }
    }
  }

  /** The ends of a selected edge resolve to the moved image of where they resolved before. */
  lemma RenamedEndsResolve(es: seq<Edge>, old_: ObjectId, new_: ObjectId, e: Edge)
    requires CanRename(es, old_, new_) && e in es
    requires Selects(Cascading, e.kind)
    ensures var m := AliasesOf(es); var m2 := m[old_ := new_]; var r := RelationRenamed(e, old_, new_);
            && r.kind == e.kind
            && Resolve(m2, r.referenced) == Moved(Resolve(m, e.referenced), old_, new_)
            && Resolve(m, e.referenced) != new_ && Resolve(m, e.dependent) != new_
            && Resolve(m2, r.dependent) == Moved(Resolve(m, e.dependent), old_, new_)
  {
    var m := AliasesOf(es);
    TerminalResolvesToItself(m[old_ := new_], new_);
    ResolveAfterRename(m, old_, new_, e.referenced);
    ResolveAfterRename(m, old_, new_, e.dependent);
  }

  lemma {:induction false} AliasIsNotSelected(es: seq<Edge>, alias: Edge, m: Aliases, target: ObjectId, sel: Selector)
    requires alias.kind.RenameTo?
    ensures Selected(es + [alias], m, target, sel) == Selected(es, m, target, sel)
  {
    var all := es + [alias];
    assert all[..|es|] == es && all[|es|] == alias;
  }

  /** What a selector answers after the rename, for any target known before it. */
  lemma {:induction false} SelectedAfterRename(es: seq<Edge>, old_: ObjectId, new_: ObjectId, target: ObjectId, sel: Selector)
    requires CanRename(es, old_, new_) && target != new_
    ensures var m := AliasesOf(es);
            Selected(AfterRename(es, old_, new_), m[old_ := new_], Moved(target, old_, new_), sel) ==
            Mapped(Selected(es, m, target, sel), e => RelationRenamed(e, old_, new_))
  {
    var m := AliasesOf(es);
    var m2 := m[old_ := new_];
    var f := e => RelationRenamed(e, old_, new_);
    forall e | e in es && Selects(sel, e.kind)
      ensures Resolve(m2, f(e).referenced) == Moved(target, old_, new_) <==> Resolve(m, e.referenced) == target
    {
      RenamedEndsResolve(es, old_, new_, e);
    }
    SelectedImage(es, m, m2, target, Moved(target, old_, new_), sel, f);
    RenameMergesNothing(es, old_, new_);
    AliasIsNotSelected(RenamedAll(es, old_, new_), Edge(old_, new_, RenameTo), m2, Moved(target, old_, new_), sel);
  }

  /** Resolution and both lookups of `id` answer with the renamed image of the earlier answer. */
  ghost predicate Transported(es: seq<Edge>, old_: ObjectId, new_: ObjectId, id: ObjectId) {
    var after := AfterRename(es, old_, new_);
    && Resolve(AliasesOf(after), id) == Moved(Resolve(AliasesOf(es), id), old_, new_)
    && CascadeEdgesOf(after, id) == Mapped(CascadeEdgesOf(es, id), e => RelationRenamed(e, old_, new_))
    && PartitionsOf(after, id) == Mapped(PartitionsOf(es, id), x => Moved(x, old_, new_))
  }

  /** Rename transport: resolution, cascade lookups and partition lookups of every
      name answer with the renamed image of the earlier answer, in the same order. */
  lemma RenameTransport(es: seq<Edge>, old_: ObjectId, new_: ObjectId, id: ObjectId)
    requires CanRename(es, old_, new_) && Resolve(AliasesOf(es), id) != new_
    ensures Transported(es, old_, new_, id)
    ensures var after := AfterRename(es, old_, new_);
            && |after| == |es| + 1
            && CascadeEdgesOf(after, new_) == CascadeEdgesOf(after, old_)
            && PartitionsOf(after, new_) == PartitionsOf(after, old_)
  {
    var m := AliasesOf(es);
    var target := Resolve(m, id);
    RenameMergesNothing(es, old_, new_);
    TerminalResolvesToItself(m[old_ := new_], new_);
    ResolveAfterRename(m, old_, new_, id);
    ResolveAfterRename(m, old_, new_, old_);
    SelectedAfterRename(es, old_, new_, target, Cascading);
    SelectedAfterRename(es, old_, new_, target, Partitioning);
    PartitionsAfterRename(es, old_, new_, target);
  }

  lemma PartitionsAfterRename(es: seq<Edge>, old_: ObjectId, new_: ObjectId, target: ObjectId)
    requires CanRename(es, old_, new_)
    ensures var m := AliasesOf(es); var before := Selected(es, m, target, Partitioning);
            ResolvedDependents(Mapped(before, e => RelationRenamed(e, old_, new_)), m[old_ := new_]) ==
            Mapped(ResolvedDependents(before, m), x => Moved(x, old_, new_))
  {
    var m := AliasesOf(es);
    var before := Selected(es, m, target, Partitioning);
    SelectedAreEdges(es, m, target, Partitioning);
    forall i | 0 <= i < |before|
      ensures Resolve(m[old_ := new_], RelationRenamed(before[i], old_, new_).dependent) ==
              Moved(Resolve(m, before[i].dependent), old_, new_)
    {
      RenamedEndsResolve(es, old_, new_, before[i]);
    }
  }
}
