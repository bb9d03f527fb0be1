/** Renaming to a name that is not fresh: exactly when nothing is lost. */
module GraphRenameBack {
  import opened Collections
  import opened Identifiers
  import opened GraphModel
  import opened GraphRename

  /** Every name keeps its answers exactly when the new name was never renamed away. */
  lemma RenameTransportExactly(es: seq<Edge>, old_: ObjectId, new_: ObjectId)
    requires Renamable(es, old_, new_) && EndsMiss(es, new_)
    ensures (forall id :: Resolve(AliasesOf(es), id) != new_ ==> Transported(es, old_, new_, id)) <==> new_ !in AliasesOf(es)
  {
    if new_ in AliasesOf(es) {
      TerminalResolvesToItself(AliasesOf(es), old_);
      NamesAfterAnyRename(es, old_, new_, old_);
      assert !Transported(es, old_, new_, old_);
    } else {
      forall id | Resolve(AliasesOf(es), id) != new_ ensures Transported(es, old_, new_, id) {
        RenameTransport(es, old_, new_, id);
      }
    }
  }

  /** `old` goes back to `new`, a name it had before. */
  predicate GoesBack(es: seq<Edge>, old_: ObjectId, new_: ObjectId) {
    Renamable(es, old_, new_) && Resolve(AliasesOf(es), new_) == old_
  }

  /** A chain into a cycle has no end. */
  lemma ChainIntoCycleHasNoEnd(m: Aliases, id: ObjectId, n: nat, at: ObjectId, k: nat, end: ObjectId)
    requires Follow(m, id, n) == Some(at) && k > 0 && Follow(m, at, k) == Some(at)
    ensures !EndsAt(m, id, end)
  {
    if EndsAt(m, id, end) {
      var d: nat :| Follow(m, id, d) == Some(end);
      if d >= n {
        FollowAdds(m, id, n, d - n);
        CycleHasNoEnd(m, at, k, end);
      } else {
        FollowAdds(m, id, d, n - d);
      }
    }
  }

  /** Renamed back, the name answers to itself, and every other name it had, `old` included,
      is cut off and stands for itself alone. */
  lemma NamesAfterGoingBack(es: seq<Edge>, old_: ObjectId, new_: ObjectId, id: ObjectId)
    requires GoesBack(es, old_, new_) && Resolve(AliasesOf(es), id) == old_
    ensures Resolve(AliasesOf(AfterRename(es, old_, new_)), id) == id
  {
    var m := AliasesOf(es);
    var m2 := m[old_ := new_];
    AliasesAfterRename(es, old_, new_);
    assert Follow(m, old_, 0) == Some(old_);
    ResolveMeaning(m, id, old_);
    ResolveMeaning(m, new_, old_);
    var n: nat :| Follow(m, id, n) == Some(old_);
    var k: nat :| Follow(m, new_, k) == Some(old_);
    FollowInLarger(m, m2, id, n);
    FollowInLarger(m, m2, new_, k);
    assert Follow(m2, old_, k + 1) == Some(old_);
    forall e ensures !EndsAt(m2, id, e) {
      ChainIntoCycleHasNoEnd(m2, id, n, old_, k + 1, e);
    }
    ResolveMeaning(m2, id, id);
  }

  /** A selected edge that denotes `old` by one of its earlier names. */
  predicate Stale(e: Edge, m: Aliases, old_: ObjectId, sel: Selector) {
    Selects(sel, e.kind) && Resolve(m, e.referenced) == old_ && e.referenced != old_
  }

  /** After going back, an edge is found under the new name exactly when it was written with
      the name just given up. */
  lemma FoundAfterGoingBack(es: seq<Edge>, old_: ObjectId, new_: ObjectId, e: Edge)
    requires GoesBack(es, old_, new_) && e in es && Selects(Cascading, e.kind)
    ensures var m2 := AliasesOf(AfterRename(es, old_, new_));
            Resolve(m2, RelationRenamed(e, old_, new_).referenced) == new_ <==> e.referenced == old_
  {
    var m := AliasesOf(es);
    AliasesAfterRename(es, old_, new_);
    if e.referenced == old_ {
      NamesAfterGoingBack(es, old_, new_, new_);
    } else if Resolve(m, e.referenced) == old_ {
      NamesAfterGoingBack(es, old_, new_, e.referenced);
    } else {
      OtherNamesStay(m, old_, new_, e.referenced);
      ResolveMeaning(m, e.referenced, new_);
      TerminalIsNotRenamed(m, old_, new_);
    }
  }

  lemma TerminalIsNotRenamed(m: Aliases, old_: ObjectId, new_: ObjectId)
    requires Resolve(m, new_) == old_ && old_ != new_
    ensures new_ in m
  {
  }

  /** What the scan of a renamed prefix finds: all the answer, or less when an edge is stale. */
  lemma {:induction false} ScanAfterGoingBack(es: seq<Edge>, m: Aliases, m2: Aliases, old_: ObjectId, new_: ObjectId, sel: Selector)
    requires old_ !in m
    requires forall e :: e in es && Selects(sel, e.kind) ==>
               (Resolve(m2, RelationRenamed(e, old_, new_).referenced) == new_ <==> e.referenced == old_)
    ensures var found := Selected(RenamedAll(es, old_, new_), m2, new_, sel);
            var image := Mapped(Selected(es, m, old_, sel), e => RelationRenamed(e, old_, new_));
            && |found| <= |image|
            && (if exists e :: e in es && Stale(e, m, old_, sel) then |found| < |image| else found == image)
  {
    if es != [] {
      var n := |es| - 1;
      var front, e := es[..n], es[n];
      assert es == front + [e] && e in es;
      assert RenamedAll(es, old_, new_)[..n] == RenamedAll(front, old_, new_);
      assert RelationRenamed(e, old_, new_).kind == e.kind;
      TerminalResolvesToItself(m, old_);
      ScanAfterGoingBack(front, m, m2, old_, new_, sel);
    }
  }

  /** Renamed back, the current name keeps its cascade edges exactly when no dependency was
      written with another of its earlier names. */
  lemma LookupAfterGoingBack(es: seq<Edge>, old_: ObjectId, new_: ObjectId)
    requires GoesBack(es, old_, new_)
    ensures CascadeEdgesOf(AfterRename(es, old_, new_), new_) ==
              Mapped(CascadeEdgesOf(es, new_), e => RelationRenamed(e, old_, new_)) <==>
            !exists e :: e in es && Stale(e, AliasesOf(es), old_, Cascading)
  {
    var m, after := AliasesOf(es), AfterRename(es, old_, new_);
    var m2 := AliasesOf(after);
    RenameMergesNothing(es, old_, new_);
    NamesAfterGoingBack(es, old_, new_, new_);
    forall e | e in es && Selects(Cascading, e.kind)
      ensures Resolve(m2, RelationRenamed(e, old_, new_).referenced) == new_ <==> e.referenced == old_
    {
      FoundAfterGoingBack(es, old_, new_, e);
    }
    ScanAfterGoingBack(es, m, m2, old_, new_, Cascading);
    AliasIsNotSelected(RenamedAll(es, old_, new_), Edge(old_, new_, RenameTo), m2, new_, Cascading);
  }

  /** A name `x` of what was called `a` and then `b` no longer finds it once it is `a` again. */
  lemma {:induction false} EarlierNameIsCutOff(x: ObjectId, a: ObjectId, b: ObjectId)
    requires x != a && a != b && b != x
    ensures var es := [Edge(x, a, RenameTo), Edge(a, b, RenameTo)];
            && GoesBack(es, b, a) && Resolve(AliasesOf(es), x) == b
            && Resolve(AliasesOf(AfterRename(es, b, a)), x) == x
  {
    var first, es := [Edge(x, a, RenameTo)], [Edge(x, a, RenameTo), Edge(a, b, RenameTo)];
    assert first[..0] == [] && es[..1] == first;
    assert AliasesOf(first) == map[x := a];
    var m := AliasesOf(es);
    assert m == map[x := a, a := b];
    assert Follow(m, b, 0) == Follow(m, a, 1) == Follow(m, x, 2) == Some(b);
    ResolveMeaning(m, x, b);
    ResolveMeaning(m, a, b);
    NamesAfterGoingBack(es, b, a, x);
  }
}
