/** The statement loop over the transaction state: a statement that fails inside a transaction
    leaves nothing behind but the abort flag and what its conflicting action raised. */
module StatementAtomicity {
  import opened Collections
  import opened Transactions
  import opened AnalysisSessions
  import Loop = StatementLoop

  /** A resolved action: the changes it makes before it succeeds or conflicts. */
  datatype Action<!V> = Action(changes: Session<V> -> seq<Operation<V>>, outcome: Session<V> -> Loop.Outcome)

  /** A rule: the evidence it records, and its findings. */
  datatype Rule<!V> = Rule(notes: Session<V> -> seq<Operation<V>>, findings: Session<V> -> seq<Loop.Finding>)

  /** An aborted transaction executes nothing; a conflict inside a transaction aborts it. */
  function Apply<V>(s: Session<V>, a: Action<V>): (Session<V>, Loop.Outcome) {
    if s.aborted then (s, Loop.NotExecuted)
    else
      var t := RunAll(s, Mutations(a.changes(s)));
      var o := a.outcome(s);
      (if o.Conflict? && t.frames != [] then t.(aborted := true) else t, o)
  }

  /** Evidence is recorded in an aborted transaction too. */
  function Noted<V>(s: Session<V>, notes: seq<Operation<V>>): Session<V> {
    RunAll(s.(aborted := false), Mutations(notes)).(aborted := s.aborted)
  }

  /** Undo what was logged since the checkpoint, when the frames still allow it. */
  function RestoreTo<V>(checkpoint: Session<V>, failed: Session<V>): Session<V> {
    if checkpoint.frames != [] && |failed.frames| == |checkpoint.frames| &&
       |checkpoint.frames[|checkpoint.frames| - 1].undoLog| <= |failed.frames[|failed.frames| - 1].undoLog|
    then Restored(failed, |checkpoint.frames[|checkpoint.frames| - 1].undoLog|)
    else checkpoint.(aborted := failed.aborted && checkpoint.frames != [])
  }

  function SessionWorld<V, T>(resolve: (T, Session<V>) -> seq<Action<V>>, rules: seq<Rule<V>>,
                              complete: (Session<V>, Session<V>, seq<Action<V>>) -> Session<V>)
    : Loop.World<Session<V>, T, Action<V>>
  {
    Loop.World(
      resolve,
      (s: Session<V>, a: Action<V>) => Apply(s, a),
      (s: Session<V>, a: Action<V>, o: Loop.Outcome, i: nat) =>
        if i < |rules| then (Noted(s, rules[i].notes(s)), rules[i].findings(s)) else (s, []),
      |rules|,
      (checkpoint: Session<V>, failed: Session<V>) => RestoreTo(checkpoint, failed),
      complete)
  }

  lemma {:induction false} RunAllConcat<V>(s: Session<V>, a: seq<Command<V>>, b: seq<Command<V>>)
    ensures RunAll(s, a + b) == RunAll(RunAll(s, a), b)
    decreases |a|
  {
    if a == [] {
      assert a + b == b;
    } else {
      assert (a + b)[1..] == a[1..] + b;
      RunAllConcat(Step(s, a[0]), a[1..], b);
    }
  }

  /** `t` is what some changes, all of them logged, made of `s`. */
  ghost predicate ChangedFrom<V(!new)>(s: Session<V>, t: Session<V>) {
    exists ops :: t == RunAll(s, Mutations(ops))
  }

  lemma ChangesCompose<V(!new)>(s: Session<V>, t: Session<V>, ops: seq<Operation<V>>)
    requires ChangedFrom(s, t)
    ensures ChangedFrom(s, RunAll(t, Mutations(ops)))
  {
    var first :| t == RunAll(s, Mutations(first));
    RunAllConcat(s, Mutations(first), Mutations(ops));
    assert Mutations(first + ops) == Mutations(first) + Mutations(ops);
  }

  /** In a live transaction changes neither abort it nor touch its frames but the last log. */
  lemma ChangesStayLive<V(!new)>(s: Session<V>, t: Session<V>)
    requires s.frames != [] && !s.aborted && Distinct(s.world.edges) && ChangedFrom(s, t)
    ensures !t.aborted && |t.frames| == |s.frames| && RestoreTo(s, t) == s
    ensures RestoreTo(s, t.(aborted := true)) == s.(aborted := true)
  {
    var ops :| t == RunAll(s, Mutations(ops));
    var extra := StatementIsTakenBack(s, ops);
    CheckpointRestoresStatement(s, ops);
  }

  /** The loop's parts, gathered. */
  datatype Parts<!V, !T> = Parts(resolve: (T, Session<V>) -> seq<Action<V>>, rules: seq<Rule<V>>,
                                 complete: (Session<V>, Session<V>, seq<Action<V>>) -> Session<V>)

  function WorldOf<V, T>(parts: Parts<V, T>): Loop.World<Session<V>, T, Action<V>> {
    SessionWorld(parts.resolve, parts.rules, parts.complete)
  }

  lemma NotesAreChanges<V(!new)>(start: Session<V>, s: Session<V>, notes: seq<Operation<V>>)
    requires start.frames != [] && !start.aborted && Distinct(start.world.edges) && ChangedFrom(start, s)
    ensures ChangedFrom(start, Noted(s, notes))
  {
    ChangesStayLive(start, s);
    ChangesCompose(start, s, notes);
    ChangesStayLive(start, RunAll(s, Mutations(notes)));
    assert s.(aborted := false) == s;
  }

  lemma {:induction false} RaisingIsChange<V(!new), T>(parts: Parts<V, T>, start: Session<V>, s: Session<V>, a: Action<V>,
                                                       o: Loop.Outcome, rule: nat)
    requires start.frames != [] && !start.aborted && Distinct(start.world.edges) && ChangedFrom(start, s)
    requires rule <= |parts.rules|
    ensures ChangedFrom(start, Loop.RaisedBy(WorldOf(parts), s, a, o, rule).0)
    decreases |parts.rules| - rule
  {
    if rule < |parts.rules| {
      var next := Noted(s, parts.rules[rule].notes(s));
      NotesAreChanges(start, s, parts.rules[rule].notes(s));
      RaisingIsChange(parts, start, next, a, o, rule + 1);
    }
  }

  /** Up to the first conflict a statement only made logged changes. */
  lemma {:induction false} BeforeConflict<V(!new), T>(parts: Parts<V, T>, start: Session<V>, s: Session<V>, actions: seq<Action<V>>, n: nat)
    requires start.frames != [] && !start.aborted && Distinct(start.world.edges) && ChangedFrom(start, s)
    requires n <= |actions|
    requires forall k :: 0 <= k < n ==> !Apply(Loop.StateBefore(WorldOf(parts), s, actions, k), actions[k]).1.Conflict?
    ensures ChangedFrom(start, Loop.StateBefore(WorldOf(parts), s, actions, n))
    decreases n
  {
    if n > 0 {
      var w := WorldOf(parts);
      assert Loop.StateBefore(w, s, actions, 0) == s;
      ChangesStayLive(start, s);
      var (s1, o) := Apply(s, actions[0]);
      ChangesCompose(start, s, actions[0].changes(s));
      RaisingIsChange(parts, start, s1, actions[0], o, 0);
      var s2 := if o.NotExecuted? then s1 else Loop.RaisedBy(w, s1, actions[0], o, 0).0;
      forall k | 0 <= k < n - 1 ensures !Apply(Loop.StateBefore(w, s2, actions[1..], k), actions[1..][k]).1.Conflict? {
        assert Loop.StateBefore(w, s, actions, k + 1) == Loop.StateBefore(w, s2, actions[1..], k);
        assert !Apply(Loop.StateBefore(w, s, actions, k + 1), actions[k + 1]).1.Conflict?;
      }
      BeforeConflict(parts, start, s2, actions[1..], n - 1);
    }
  }

  /** A statement of a live transaction that conflicts at its n-th action ends as if it had
      found the transaction aborted and only that action's rules had spoken: every change of
      every action, the conflicting one included, and every note of their rules is undone. */
  lemma FailedStatementLeavesNothing<V(!new), T>(parts: Parts<V, T>, s: Session<V>, actions: seq<Action<V>>, n: nat)
    requires s.frames != [] && !s.aborted && Distinct(s.world.edges)
    requires Loop.ConflictsFirstAt(WorldOf(parts), s, actions, n)
    ensures var (after, raw) := Loop.RaisedBy(WorldOf(parts), s.(aborted := true), actions[n], Loop.Conflict, 0);
            Loop.RunActions(WorldOf(parts), s, s, actions) == Loop.Ran(after, raw, true)
  {
    var w := WorldOf(parts);
    assert RunAll(s, Mutations<V>([])) == s;
    forall k | 0 <= k < n ensures !Apply(Loop.StateBefore(w, s, actions, k), actions[k]).1.Conflict? {
      assert !w.apply(Loop.StateBefore(w, s, actions, k), actions[k]).1.Conflict?;
    }
    BeforeConflict(parts, s, s, actions, n);
    var reached := Loop.StateBefore(w, s, actions, n);
    ChangesStayLive(s, reached);
    ChangesCompose(s, reached, actions[n].changes(reached));
    var tried := RunAll(reached, Mutations(actions[n].changes(reached)));
    ChangesStayLive(s, tried);
    assert w.apply(reached, actions[n]) == (tried.(aborted := true), Loop.Conflict);
    Loop.ConflictContributesItsActionOnly(w, s, s, actions, n);
  }

  /** A statement that meets an aborted transaction changes nothing and reports nothing. */
  lemma {:induction false} AbortedStatementIsSilent<V(!new), T>(parts: Parts<V, T>, checkpoint: Session<V>, s: Session<V>, actions: seq<Action<V>>)
    requires s.aborted
    ensures Loop.RunActions(WorldOf(parts), checkpoint, s, actions) == Loop.Ran(s, [], false)
    decreases |actions|
  {
    if actions != [] {
      assert WorldOf(parts).apply(s, actions[0]) == (s, Loop.NotExecuted);
      AbortedStatementIsSilent(parts, checkpoint, s, actions[1..]);
    }
  }
}
