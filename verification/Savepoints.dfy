/** What savepoint commands mean over whole runs, told without the machine's own search. */
module Savepoints {
  import opened Collections
  import opened GraphModel
  import opened GraphRename
  import opened Transactions

  /** Frame `n` is never popped while the commands run. */
  ghost predicate StaysAbove<V>(s: Session<V>, cs: seq<Command<V>>, n: nat)
    decreases |cs|
  {
    |s.frames| > n && (cs == [] || StaysAbove(Step(s, cs[0]), cs[1..], n))
  }

  lemma CommandKeepsSaved<V>(s: Session<V>, a: Plain<V>, c: Command<V>, n: nat)
    requires Related(s, a) && n >= 1 && |s.frames| > n && |Step(s, c).frames| > n
    ensures Related(Step(s, c), PlainStep(a, c)) && |PlainStep(a, c).saved| > n && |a.saved| > n
    ensures PlainStep(a, c).saved[..n + 1] == a.saved[..n + 1]
  {
    RelatedLengths(s, a);
    StepSimulates(s, a, c);
    RelatedLengths(Step(s, c), PlainStep(a, c));
  }

  lemma {:induction false} RunKeepsSaved<V>(s: Session<V>, a: Plain<V>, cs: seq<Command<V>>, n: nat)
    requires Related(s, a) && n >= 1 && StaysAbove(s, cs, n)
    ensures Related(RunAll(s, cs), PlainRunAll(a, cs)) && |a.saved| > n && |PlainRunAll(a, cs).saved| > n
    ensures PlainRunAll(a, cs).saved[..n + 1] == a.saved[..n + 1]
    decreases |cs|
  {
    RelatedLengths(s, a);
    if cs != [] {
      CommandKeepsSaved(s, a, cs[0], n);
      RunKeepsSaved(Step(s, cs[0]), PlainStep(a, cs[0]), cs[1..], n);
    }
  }

  lemma RelatedRollbackToReturns<V>(s: Session<V>, a: Plain<V>, name: string, cs: seq<Command<V>>)
    requires Related(s, a) && s.frames != [] && !s.aborted
    requires StaysAbove(Step(s, SetSavepoint(name)), cs, |s.frames|)
    requires var t := RunAll(Step(s, SetSavepoint(name)), cs);
             forall k :: |s.frames| < k < |t.frames| ==> t.frames[k].kind != Savepoint(name)
    ensures var t := RunAll(Step(s, SetSavepoint(name)), cs);
            var u := Step(t, RollbackTo(name));
            && u.world == s.world && !u.aborted
            && Kinds(u.frames) == Kinds(s.frames) + [Savepoint(name)]
  {
    var n := |s.frames|;
    var s1, a1 := Step(s, SetSavepoint(name)), PlainStep(a, SetSavepoint(name));
    RelatedLengths(s, a);
    StepSimulates(s, a, SetSavepoint(name));
    RunKeepsSaved(s1, a1, cs, n);
    WholePrefix(a1.saved);
    var t := RunAll(s1, cs);
    forall k | n < k < |t.frames| ensures t.frames[k].kind != Savepoint(name) {
      assert RunAll(Step(s, SetSavepoint(name)), cs).frames[k].kind != Savepoint(name);
    }
    RollbackToInnermost(t, PlainRunAll(a1, cs), name, a.saved, s.world);
    KindsOfPushed(s, a, name);
  }

  lemma KindsOfPushed<V>(s: Session<V>, a: Plain<V>, name: string)
    requires Related(s, a)
    ensures SavedKinds(a.saved + [Saved(Savepoint(name), s.world)]) == Kinds(s.frames) + [Savepoint(name)]
  {
    var pushed := a.saved + [Saved(Savepoint(name), s.world)];
    assert SavedKinds(pushed) == SavedKinds(a.saved) + [Savepoint(name)];
  }

  /** With the copies below and at a savepoint known, and no later one of its name. */
  lemma RollbackToInnermost<V>(t: Session<V>, b: Plain<V>, name: string, below: seq<Saved<V>>, world: World<V>)
    requires Related(t, b) && |b.saved| > |below| && b.saved[..|below| + 1] == below + [Saved(Savepoint(name), world)]
    requires forall k :: |below| < k < |t.frames| ==> t.frames[k].kind != Savepoint(name)
    ensures var u := Step(t, RollbackTo(name));
            u.world == world && !u.aborted && Kinds(u.frames) == SavedKinds(below + [Saved(Savepoint(name), world)])
  {
    var n := |below|;
    RelatedLengths(t, b);
    assert b.saved[n] == b.saved[..n + 1][n] == Saved(Savepoint(name), world);
    KindsAtAndAbove(t, b, name, n);
    FoundAt(SavedKinds(b.saved), name, n);
    StepSimulates(t, b, RollbackTo(name));
  }

  lemma KindsAtAndAbove<V>(t: Session<V>, b: Plain<V>, name: string, n: nat)
    requires Related(t, b) && n < |b.saved| == |t.frames| && b.saved[n].kind == Savepoint(name)
    requires forall k :: n < k < |t.frames| ==> t.frames[k].kind != Savepoint(name)
    ensures SavedKinds(b.saved)[n] == Savepoint(name)
    ensures forall k :: n < k < |b.saved| ==> SavedKinds(b.saved)[k] != Savepoint(name)
  {
    forall k | n < k < |b.saved| ensures SavedKinds(b.saved)[k] != Savepoint(name) {
      assert SavedKinds(b.saved)[k] == Kinds(t.frames)[k] == t.frames[k].kind;
    }
  }

  lemma FoundAt(kinds: seq<FrameKind>, name: string, n: nat)
    requires n < |kinds| && kinds[n] == Savepoint(name) && forall k :: n < k < |kinds| ==> kinds[k] != Savepoint(name)
    ensures LastNamed(kinds, name) == Some(n)
  {
    assert kinds[n] in kinds;
  }

  lemma RelatedReleaseKeepsWork<V>(s: Session<V>, a: Plain<V>, name: string, n: nat)
    requires Related(s, a) && !s.aborted && 1 <= n < |s.frames| && s.frames[n].kind == Savepoint(name)
    requires forall k :: n < k < |s.frames| ==> s.frames[k].kind != Savepoint(name)
    ensures var u := Step(s, Release(name));
            && u.world == s.world && !u.aborted && Kinds(u.frames) == Kinds(s.frames)[..n]
            && forall i :: 0 <= i < n ==> StartOf(u.world, u.frames, i) == StartOf(s.world, s.frames, i)
  {
    FoundAt(Kinds(s.frames), name, n);
    RelatedLengths(s, a);
    StepSimulates(s, a, Release(name));
    var u, b := Step(s, Release(name)), PlainStep(a, Release(name));
    RelatedLengths(u, b);
    assert b.saved == a.saved[..n];
    assert SavedKinds(b.saved) == SavedKinds(a.saved)[..n];
  }

  /** The state a session is in after some commands. */
  function Reached<V>(world: World<V>, sofar: seq<Command<V>>): Session<V> {
    RunAll(Session(world, [], false), sofar)
  }

  lemma ReachedIsRelated<V>(world: World<V>, sofar: seq<Command<V>>)
    requires Distinct(world.edges)
    ensures Related(Reached(world, sofar), PlainRunAll(Plain(world, [], false), sofar))
  {
    FreshSession(world, false);
    RunsStayRelated(Session(world, [], false), Plain(world, [], false), sofar);
  }

  /** Whatever ran before a savepoint was set and since, as long as it was not popped: when no
      later savepoint bears its name, rolling back to the name gives back the state at that
      savepoint, revives the transaction, and leaves the savepoint as the innermost frame. */
  lemma RollbackToReturnsToSavepoint<V>(world: World<V>, sofar: seq<Command<V>>, name: string, cs: seq<Command<V>>)
    requires Distinct(world.edges) && Reached(world, sofar).frames != [] && !Reached(world, sofar).aborted
    requires StaysAbove(Step(Reached(world, sofar), SetSavepoint(name)), cs, |Reached(world, sofar).frames|)
    requires var s := Reached(world, sofar); var t := RunAll(Step(s, SetSavepoint(name)), cs);
             forall k :: |s.frames| < k < |t.frames| ==> t.frames[k].kind != Savepoint(name)
    ensures var s := Reached(world, sofar);
            var u := Step(RunAll(Step(s, SetSavepoint(name)), cs), RollbackTo(name));
            && u.world == s.world && !u.aborted
            && Kinds(u.frames) == Kinds(s.frames) + [Savepoint(name)]
  {
    ReachedIsRelated(world, sofar);
    RelatedRollbackToReturns(Reached(world, sofar), PlainRunAll(Plain(world, [], false), sofar), name, cs);
  }

  /** Releasing the innermost savepoint of a name keeps the state, drops it with all later
      frames, and leaves every earlier frame's own start as it was. */
  lemma ReleaseKeepsWork<V>(world: World<V>, sofar: seq<Command<V>>, name: string, n: nat)
    requires Distinct(world.edges) && !Reached(world, sofar).aborted && 1 <= n < |Reached(world, sofar).frames|
    requires Reached(world, sofar).frames[n].kind == Savepoint(name)
    requires var s := Reached(world, sofar); forall k :: n < k < |s.frames| ==> s.frames[k].kind != Savepoint(name)
    ensures var s := Reached(world, sofar); var u := Step(s, Release(name));
            && u.world == s.world && !u.aborted && Kinds(u.frames) == Kinds(s.frames)[..n]
            && forall i :: 0 <= i < n ==> StartOf(u.world, u.frames, i) == StartOf(s.world, s.frames, i)
  {
    ReachedIsRelated(world, sofar);
    RelatedReleaseKeepsWork(Reached(world, sofar), PlainRunAll(Plain(world, [], false), sofar), name, n);
  }

  /** A name no savepoint bears aborts the transaction, whichever of the two commands uses it. */
  lemma UnknownSavepointAborts<V>(s: Session<V>, name: string)
    requires s.frames != [] && !s.aborted && forall k :: 0 <= k < |s.frames| ==> s.frames[k].kind != Savepoint(name)
    ensures Step(s, RollbackTo(name)) == s.(aborted := true) && Step(s, Release(name)) == s.(aborted := true)
  {
    assert Savepoint(name) !in Kinds(s.frames);
  }

  /** What the recorded operations do, whatever is undone later. */
  lemma {:induction false} AddedAllAreThere(es: seq<Edge>, added: seq<Edge>)
    ensures forall e :: e in AddAll(es, added) <==> e in es || e in added
    decreases |added|
  {
    if added != [] {
      AddedAllAreThere(Added(es, added[0]), added[1..]);
      assert added == [added[0]] + added[1..];
    }
  }

  lemma OperationMeaning<V>(w: World<V>, op: Operation<V>)
    ensures op.WriteObject? ==>
              && Performed(w, op).edges == w.edges && Get(Performed(w, op).objects, op.key) == op.value
              && forall k :: k != op.key ==> Get(Performed(w, op).objects, k) == Get(w.objects, k)
    ensures op.AddEdges? ==>
              && Performed(w, op).objects == w.objects
              && forall e :: e in Performed(w, op).edges <==> e in w.edges || e in op.added
    ensures op.RewriteEdges? ==>
              Performed(w, op).objects == w.objects && forall e :: e in Performed(w, op).edges <==> e in op.rewritten
    ensures op.RewriteNamespace? ==>
              Performed(w, op).objects == op.objects && forall e :: e in Performed(w, op).edges <==> e in op.moved
  {
    match op {
      case WriteObject(key, value) =>
      case AddEdges(added) => AddedAllAreThere(w.edges, added);
      case RewriteEdges(rewritten) => DedupKeepsElements(rewritten);
      case RewriteNamespace(objects, moved) => DedupKeepsElements(moved);
    }
  }
}
