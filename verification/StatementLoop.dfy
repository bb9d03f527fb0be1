/** The per-statement loop of the engine: atomic statements, local findings and
    deduplication keys that only survive with the statement. */
module StatementLoop {
  import opened Collections

  datatype Outcome = Applied | NoOp | Unresolved | NotExecuted | Conflict

  /** A finding with its grouping hint. A finding raised by the engine itself, for a
      forbidden inline suppression, is reported without being grouped. */
  datatype Finding = Finding(rule: nat, dedupKey: Option<string>, byRule: bool, text: string)

  /** The parts of the analyzer the loop drives: the state transition, the resolver, what
      one rule raises (its effect on the evidence included), the state a failed statement
      is put back to, and what follows a completed statement. */
  datatype World<!State, !Statement, !Action> = World(
    resolve: (Statement, State) -> seq<Action>,
    apply: (State, Action) -> (State, Outcome),
    raise: (State, Action, Outcome, nat) -> (State, seq<Finding>),
    rules: nat,
    restore: (State, State) -> State,
    complete: (State, State, seq<Action>) -> State)

  // ------------------------------------------------- deduplication

  function KeyOf(f: Finding): set<string> {
    if f.byRule && f.dedupKey.Some? then {f.dedupKey.value} else {}
  }

  function KeysOf(raw: seq<Finding>): set<string> {
    if raw == [] then {} else KeysOf(raw[..|raw| - 1]) + KeyOf(raw[|raw| - 1])
  }

  predicate Suppressed(f: Finding, seen: set<string>) {
    f.byRule && f.dedupKey.Some? && f.dedupKey.value in seen
  }

  /** The findings that survive, given the keys already warned about. */
  function Deduped(seen: set<string>, raw: seq<Finding>): seq<Finding> {
    if raw == [] then []
    else
      var n := |raw| - 1;
      Deduped(seen, raw[..n]) + (if Suppressed(raw[n], seen + KeysOf(raw[..n])) then [] else [raw[n]])
  }

  lemma OneMore(seen: set<string>, raw: seq<Finding>, f: Finding)
    ensures KeysOf(raw + [f]) == KeysOf(raw) + KeyOf(f)
    ensures Deduped(seen, raw + [f]) == Deduped(seen, raw) + (if Suppressed(f, seen + KeysOf(raw)) then [] else [f])
  {
    assert (raw + [f])[..|raw|] == raw;
  }

  lemma {:induction false} DedupedConcat(seen: set<string>, a: seq<Finding>, b: seq<Finding>)
    ensures KeysOf(a + b) == KeysOf(a) + KeysOf(b)
    ensures Deduped(seen, a + b) == Deduped(seen, a) + Deduped(seen + KeysOf(a), b)
  {
    if b == [] {
      assert a + b == a;
    } else {
      var front, f := b[..|b| - 1], b[|b| - 1];
      assert b == front + [f] && a + b == (a + front) + [f];
      DedupedConcat(seen, a, front);
      OneMore(seen, a + front, f);
      OneMore(seen + KeysOf(a), front, f);
    }
  }

  /** No two rule findings share a key. */
  ghost predicate KeysAreDistinct(fs: seq<Finding>) {
    forall i, j :: 0 <= i < j < |fs| ==> KeyOf(fs[i]) !! KeyOf(fs[j])
  }

  lemma {:induction false} KeysComeFromFindings(fs: seq<Finding>, i: nat)
    requires i < |fs|
    ensures KeyOf(fs[i]) <= KeysOf(fs)
  {
    if i < |fs| - 1 {
      KeysComeFromFindings(fs[..|fs| - 1], i);
    }
  }

  /** Deduplication reports every unseen key, and no seen one. */
  lemma {:induction false} DedupedKeys(seen: set<string>, raw: seq<Finding>)
    ensures KeysOf(Deduped(seen, raw)) == KeysOf(raw) - seen
  {
    if raw != [] {
      var front, f := raw[..|raw| - 1], raw[|raw| - 1];
      DedupedKeys(seen, front);
      OneMore({}, Deduped(seen, front), f);
      assert Deduped(seen, front) + [] == Deduped(seen, front);
    }
  }

  /** One finding per key. */
  lemma {:induction false} DedupedIsDistinct(seen: set<string>, raw: seq<Finding>)
    ensures KeysAreDistinct(Deduped(seen, raw))
  {
    if raw != [] {
      var front, f := raw[..|raw| - 1], raw[|raw| - 1];
      DedupedIsDistinct(seen, front);
      DedupedKeys(seen, front);
      var kept := Deduped(seen, front);
      if !Suppressed(f, seen + KeysOf(front)) {
        forall i | 0 <= i < |kept| ensures KeyOf(kept[i]) !! KeyOf(f) {
          KeysComeFromFindings(kept, i);
        }
      }
    }
  }

  /** Nothing without a key is dropped, and nothing is made up. */
  lemma {:induction false} DedupedKeepsUnkeyed(seen: set<string>, raw: seq<Finding>)
    ensures forall f :: f in raw && KeyOf(f) == {} ==> f in Deduped(seen, raw)
    ensures forall f :: f in Deduped(seen, raw) ==> f in raw
  {
    if raw != [] {
      DedupedKeepsUnkeyed(seen, raw[..|raw| - 1]);
      assert raw == raw[..|raw| - 1] + [raw[|raw| - 1]];
    }
  }

  // ------------------------------------------------- one statement

  /** What the rules from `rule` on raise for one action, in order. */
  function RaisedBy<S, T, A>(w: World<S, T, A>, s: S, a: A, o: Outcome, rule: nat): (S, seq<Finding>)
    requires rule <= w.rules
    decreases w.rules - rule
  {
    if rule == w.rules then (s, [])
    else
      var (s1, here) := w.raise(s, a, o, rule);
      var (s2, rest) := RaisedBy(w, s1, a, o, rule + 1);
      (s2, here + rest)
  }

  datatype Ran<+S> = Ran(state: S, raw: seq<Finding>, failed: bool)

  /** A statement's actions: its raw findings are all of them, or only those of the action
      that conflicted, raised on the restored state. */
  function RunActions<S, T, A>(w: World<S, T, A>, checkpoint: S, s: S, actions: seq<A>): Ran<S>
    decreases |actions|
  {
    if actions == [] then Ran(s, [], false)
    else
      var (s1, o) := w.apply(s, actions[0]);
      if o.Conflict? then
        var (s2, raw) := RaisedBy(w, w.restore(checkpoint, s1), actions[0], o, 0);
        Ran(s2, raw, true)
      else if o.NotExecuted? then RunActions(w, checkpoint, s1, actions[1..])
      else
        var (s2, raw) := RaisedBy(w, s1, actions[0], o, 0);
        var rest := RunActions(w, checkpoint, s2, actions[1..]);
        if rest.failed then rest else rest.(raw := raw + rest.raw)
  }

  function RunStatement<S, T, A>(w: World<S, T, A>, s: S, stmt: T): Ran<S> {
    var actions := w.resolve(stmt, s);
    var ran := RunActions(w, s, s, actions);
    if ran.failed then ran else ran.(state := w.complete(s, ran.state, actions))
  }

  /** The state in which action `n` starts, when nothing before it conflicts. */
  function StateBefore<S, T, A>(w: World<S, T, A>, s: S, actions: seq<A>, n: nat): S
    requires n <= |actions|
    decreases n
  {
    if n == 0 then s
    else
      var (s1, o) := w.apply(s, actions[0]);
      var s2 := if o.NotExecuted? then s1 else RaisedBy(w, s1, actions[0], o, 0).0;
      StateBefore(w, s2, actions[1..], n - 1)
  }

  /** Action `n` is the first to conflict. */
  ghost predicate ConflictsFirstAt<S, T, A>(w: World<S, T, A>, s: S, actions: seq<A>, n: nat) {
    && n < |actions|
    && w.apply(StateBefore(w, s, actions, n), actions[n]).1.Conflict?
    && forall k :: 0 <= k < n ==> !w.apply(StateBefore(w, s, actions, k), actions[k]).1.Conflict?
  }

  /** A failed statement contributes exactly what its conflicting action raised on the
      restored state: no earlier action leaves a finding or a key. */
  lemma {:induction false} ConflictContributesItsActionOnly<S, T, A>(w: World<S, T, A>, checkpoint: S, s: S, actions: seq<A>, n: nat)
    requires ConflictsFirstAt(w, s, actions, n)
    ensures var ran := RunActions(w, checkpoint, s, actions);
            var (failed, o) := w.apply(StateBefore(w, s, actions, n), actions[n]);
            var (after, raw) := RaisedBy(w, w.restore(checkpoint, failed), actions[n], o, 0);
            ran == Ran(after, raw, true)
    decreases n
  {
    assert StateBefore(w, s, actions, 0) == s;
    if n > 0 {
      var (s1, o) := w.apply(s, actions[0]);
      assert !o.Conflict?;
      var s2 := if o.NotExecuted? then s1 else RaisedBy(w, s1, actions[0], o, 0).0;
      forall k | 0 <= k < n ensures StateBefore(w, s, actions, k + 1) == StateBefore(w, s2, actions[1..], k) {
      }
      forall k | 0 <= k < n - 1 ensures !w.apply(StateBefore(w, s2, actions[1..], k), actions[1..][k]).1.Conflict? {
        assert !w.apply(StateBefore(w, s, actions, k + 1), actions[k + 1]).1.Conflict?;
      }
      ConflictContributesItsActionOnly(w, checkpoint, s2, actions[1..], n - 1);
    }
  }

  lemma {:induction false} NoConflictNoFailure<S, T, A>(w: World<S, T, A>, checkpoint: S, s: S, actions: seq<A>)
    requires forall n :: 0 <= n < |actions| ==> !w.apply(StateBefore(w, s, actions, n), actions[n]).1.Conflict?
    ensures !RunActions(w, checkpoint, s, actions).failed
    ensures RunActions(w, checkpoint, s, actions).state == StateBefore(w, s, actions, |actions|)
    decreases |actions|
  {
    if actions != [] {
      assert StateBefore(w, s, actions, 0) == s;
      var (s1, o) := w.apply(s, actions[0]);
      assert !o.Conflict?;
      var s2 := if o.NotExecuted? then s1 else RaisedBy(w, s1, actions[0], o, 0).0;
      forall k | 0 <= k < |actions| - 1 ensures !w.apply(StateBefore(w, s2, actions[1..], k), actions[1..][k]).1.Conflict? {
        assert StateBefore(w, s, actions, k + 1) == StateBefore(w, s2, actions[1..], k);
        assert !w.apply(StateBefore(w, s, actions, k + 1), actions[k + 1]).1.Conflict?;
      }
      NoConflictNoFailure(w, checkpoint, s2, actions[1..]);
    }
  }

  // ------------------------------------------------- one file

  /** All raw findings that survive their statements, file-wide. */
  function Surviving<S, T, A>(w: World<S, T, A>, s: S, stmts: seq<T>): (S, seq<Finding>)
    decreases |stmts|
  {
    if stmts == [] then (s, [])
    else
      var ran := RunStatement(w, s, stmts[0]);
      var (s2, rest) := Surviving(w, ran.state, stmts[1..]);
      (s2, ran.raw + rest)
  }

  /** Evaluate every rule for one action, pushing what is not yet warned about. */
  method EvaluateRules<S, T, A>(w: World<S, T, A>, s: S, a: A, o: Outcome, warned: set<string>,
                                ghost raw: seq<Finding>, findings: seq<Finding>, keys: set<string>)
    returns (s2: S, findings2: seq<Finding>, keys2: set<string>, ghost raw2: seq<Finding>)
    requires findings == Deduped(warned, raw) && warned + keys == warned + KeysOf(raw)
    ensures s2 == RaisedBy(w, s, a, o, 0).0 && raw2 == raw + RaisedBy(w, s, a, o, 0).1
    ensures findings2 == Deduped(warned, raw2) && warned + keys2 == warned + KeysOf(raw2)
  {
    s2, findings2, keys2, raw2 := s, findings, keys, raw;
    assert raw + RaisedBy(w, s, a, o, 0).1 == raw2 + RaisedBy(w, s2, a, o, 0).1;
    for rule := 0 to w.rules
      invariant RaisedBy(w, s, a, o, 0).0 == RaisedBy(w, s2, a, o, rule).0
      invariant raw + RaisedBy(w, s, a, o, 0).1 == raw2 + RaisedBy(w, s2, a, o, rule).1
      invariant findings2 == Deduped(warned, raw2) && warned + keys2 == warned + KeysOf(raw2)
    {
      var (s3, violations) := w.raise(s2, a, o, rule);
      ghost var rest := RaisedBy(w, s3, a, o, rule + 1).1;
      assert raw2 + (violations + rest) == (raw2 + violations) + rest;
      findings2, keys2 := PushFindings(violations, warned, raw2, findings2, keys2);
      raw2 := raw2 + violations;
      s2 := s3;
    }
    assert raw2 + [] == raw2;
  }

  /** What one more finding does, told from the keys the loop keeps. */
  lemma PushedOne(warned: set<string>, raw: seq<Finding>, keys: set<string>, v: Finding)
    requires warned + keys == warned + KeysOf(raw)
    ensures var seen := Suppressed(v, warned) || Suppressed(v, keys);
            && Deduped(warned, raw + [v]) == Deduped(warned, raw) + (if seen then [] else [v])
            && warned + (if seen then keys else keys + KeyOf(v)) == warned + KeysOf(raw + [v])
  {
    OneMore(warned, raw, v);
    assert Suppressed(v, warned + KeysOf(raw)) <==> Suppressed(v, warned + keys);
    KeysAfterOne(warned, keys, KeysOf(raw), v);
  }

  lemma KeysAfterOne(warned: set<string>, keys: set<string>, known: set<string>, v: Finding)
    requires warned + keys == warned + known
    ensures var seen := Suppressed(v, warned) || Suppressed(v, keys);
            warned + (if seen then keys else keys + KeyOf(v)) == warned + (known + KeyOf(v))
  {
    assert warned + (keys + KeyOf(v)) == (warned + keys) + KeyOf(v);
    assert warned + (known + KeyOf(v)) == (warned + known) + KeyOf(v);
  }

  lemma AfterOneMore(raw: seq<Finding>, violations: seq<Finding>, i: nat)
    requires i < |violations|
    ensures raw + violations[..i + 1] == (raw + violations[..i]) + [violations[i]]
  {
  }

  /** Push one rule's violations; a key already warned about or pushed suppresses. */
  method PushFindings(violations: seq<Finding>, warned: set<string>, ghost raw: seq<Finding>, findings: seq<Finding>,
                      keys: set<string>) returns (findings2: seq<Finding>, keys2: set<string>)
    requires findings == Deduped(warned, raw) && warned + keys == warned + KeysOf(raw)
    ensures findings2 == Deduped(warned, raw + violations) && warned + keys2 == warned + KeysOf(raw + violations)
  {
    findings2, keys2 := findings, keys;
    assert raw + violations[..0] == raw;
    for i := 0 to |violations|
      invariant findings2 == Deduped(warned, raw + violations[..i])
      invariant warned + keys2 == warned + KeysOf(raw + violations[..i])
    {
      var v := violations[i];
      AfterOneMore(raw, violations, i);
      PushedOne(warned, raw + violations[..i], keys2, v);
      if v.byRule && v.dedupKey.Some? {
        var key := v.dedupKey.value;
        if key in warned || key in keys2 {
          continue;
        }
        keys2 := keys2 + {key};
      }
      findings2 := findings2 + [v];
    }
    assert violations[..|violations|] == violations;
  }

  /** The rest of a statement, given the findings gathered so far. */
  ghost function Continued<S, T, A>(w: World<S, T, A>, checkpoint: S, s: S, actions: seq<A>, raw: seq<Finding>): Ran<S> {
    var rest := RunActions(w, checkpoint, s, actions);
    if rest.failed then rest else rest.(raw := raw + rest.raw)
  }

  lemma ContinuedStep<S, T, A>(w: World<S, T, A>, checkpoint: S, s: S, actions: seq<A>, raw: seq<Finding>)
    requires actions != []
    ensures var (s1, o) := w.apply(s, actions[0]);
            && (o.Conflict? ==>
                  var (s2, raised) := RaisedBy(w, w.restore(checkpoint, s1), actions[0], o, 0);
                  Continued(w, checkpoint, s, actions, raw) == Ran(s2, [] + raised, true))
            && (o.NotExecuted? ==>
                  Continued(w, checkpoint, s, actions, raw) == Continued(w, checkpoint, s1, actions[1..], raw))
            && (!o.Conflict? && !o.NotExecuted? ==>
                  var (s2, raised) := RaisedBy(w, s1, actions[0], o, 0);
                  Continued(w, checkpoint, s, actions, raw) == Continued(w, checkpoint, s2, actions[1..], raw + raised))
  {
    var (s1, o) := w.apply(s, actions[0]);
    if o.Conflict? {
      var raised := RaisedBy(w, w.restore(checkpoint, s1), actions[0], o, 0).1;
      assert [] + raised == raised;
    } else if !o.NotExecuted? {
      var (s2, raised) := RaisedBy(w, s1, actions[0], o, 0);
      var rest := RunActions(w, checkpoint, s2, actions[1..]).raw;
      assert (raw + raised) + rest == raw + (raised + rest);
    }
  }

  /** One statement: findings and keys stay local until every action succeeded, and are
      dropped when an action conflicts. */
  method AnalyzeStatement<S, T, A>(w: World<S, T, A>, s: S, stmt: T, warned: set<string>)
    returns (s2: S, findings: seq<Finding>, keys: set<string>)
    ensures var ran := RunStatement(w, s, stmt);
            s2 == ran.state && findings == Deduped(warned, ran.raw) && warned + keys == warned + KeysOf(ran.raw)
  {
    var actions := w.resolve(stmt, s);
    var failed;
    s2, findings, keys, failed := RunStatementActions(w, s, actions, warned);
    if !failed {
      s2 := w.complete(s, s2, actions);
    }
  }

  method RunStatementActions<S, T, A>(w: World<S, T, A>, s: S, actions: seq<A>, warned: set<string>)
    returns (s2: S, findings: seq<Finding>, keys: set<string>, failed: bool)
    ensures var ran := RunActions(w, s, s, actions);
            && s2 == ran.state && failed == ran.failed
            && findings == Deduped(warned, ran.raw) && warned + keys == warned + KeysOf(ran.raw)
  {
    findings, keys, s2, failed := [], {}, s, false;
    ghost var raw: seq<Finding> := [];
    ghost var spec := RunActions(w, s, s, actions);
    assert [] + spec.raw == spec.raw;
    for i := 0 to |actions|
      invariant !failed
      invariant findings == Deduped(warned, raw) && warned + keys == warned + KeysOf(raw)
      invariant spec == Continued(w, s, s2, actions[i..], raw)
    {
      ContinuedStep(w, s, s2, actions[i..], raw);
      var (s3, outcome) := w.apply(s2, actions[i]);
      s2 := s3;
      failed := outcome.Conflict?;
      if failed {
        s2 := w.restore(s, s2);
        findings, keys, raw := [], {}, [];
      }
      if outcome.NotExecuted? {
        continue;
      }
      s2, findings, keys, raw := EvaluateRules(w, s2, actions[i], outcome, warned, raw, findings, keys);
      if failed {
        return;
      }
    }
    assert raw + [] == raw;
  }

  lemma SurvivingOneMore<S, T, A>(w: World<S, T, A>, s: S, stmts: seq<T>, i: nat, raw: seq<Finding>)
    requires i < |stmts|
    ensures var ran := RunStatement(w, s, stmts[i]);
            && Surviving(w, s, stmts[i..]).0 == Surviving(w, ran.state, stmts[i + 1..]).0
            && raw + Surviving(w, s, stmts[i..]).1 == (raw + ran.raw) + Surviving(w, ran.state, stmts[i + 1..]).1
  {
    var left, ran := stmts[i..], RunStatement(w, s, stmts[i]);
    assert left[0] == stmts[i] && left[1..] == stmts[i + 1..];
    var rest := Surviving(w, ran.state, stmts[i + 1..]).1;
    assert raw + (ran.raw + rest) == (raw + ran.raw) + rest;
  }

  /** A whole file. */
  method AnalyzeFile<S, T, A>(w: World<S, T, A>, s: S, stmts: seq<T>) returns (s2: S, all: seq<Finding>)
    ensures s2 == Surviving(w, s, stmts).0 && all == Deduped({}, Surviving(w, s, stmts).1)
  {
    var warned: set<string> := {};
    ghost var raw: seq<Finding> := [];
    s2, all := s, [];
    assert [] + Surviving(w, s, stmts).1 == Surviving(w, s, stmts).1;
    for i := 0 to |stmts|
      invariant Surviving(w, s, stmts).0 == Surviving(w, s2, stmts[i..]).0
      invariant Surviving(w, s, stmts).1 == raw + Surviving(w, s2, stmts[i..]).1
      invariant warned == KeysOf(raw) && all == Deduped({}, raw)
    {
      ghost var ran := RunStatement(w, s2, stmts[i]);
      SurvivingOneMore(w, s2, stmts, i, raw);
      var s3, findings, keys := AnalyzeStatement(w, s2, stmts[i], warned);
      DedupedConcat({}, raw, ran.raw);
      assert {} + KeysOf(raw) == warned;
      warned := warned + keys;
      all := all + findings;
      raw := raw + ran.raw;
      s2 := s3;
    }
    assert raw + [] == raw;
  }

  /** Over a whole file: rule findings carry pairwise distinct keys; every key a surviving
      statement raised is reported, so nothing rolled back ever suppressed it; and every
      reported finding was raised by a surviving action. */
  lemma FileFindingsMeaning<S, T, A>(w: World<S, T, A>, s: S, stmts: seq<T>)
    ensures var raw := Surviving(w, s, stmts).1; var all := Deduped({}, raw);
            && (forall i, j :: 0 <= i < j < |all| && all[i].byRule && all[j].byRule && all[i].dedupKey.Some? ==>
                  all[i].dedupKey != all[j].dedupKey)
            && (forall f :: f in raw && f.byRule && f.dedupKey.Some? ==>
                  exists g :: g in all && g.byRule && g.dedupKey == f.dedupKey)
            && (forall f :: f in all ==> f in raw)
            && (forall f :: f in raw && (!f.byRule || f.dedupKey.None?) ==> f in all)
  {
    var raw := Surviving(w, s, stmts).1;
    var all := Deduped({}, raw);
    DedupedIsDistinct({}, raw);
    DedupedKeys({}, raw);
    DedupedKeepsUnkeyed({}, raw);
    forall i, j | 0 <= i < j < |all| && all[i].byRule && all[j].byRule && all[i].dedupKey.Some?
      ensures all[i].dedupKey != all[j].dedupKey
    {
      assert KeyOf(all[i]) !! KeyOf(all[j]) && all[i].dedupKey.value in KeyOf(all[i]);
    }
    forall f | f in raw && f.byRule && f.dedupKey.Some? ensures exists g :: g in all && g.byRule && g.dedupKey == f.dedupKey {
      var i :| 0 <= i < |raw| && raw[i] == f;
      KeysComeFromFindings(raw, i);
      assert f.dedupKey.value in KeysOf(all);
      var g := KeyHasFinding(all, f.dedupKey.value);
    }
  }

  lemma {:induction false} KeyHasFinding(fs: seq<Finding>, key: string) returns (f: Finding)
    requires key in KeysOf(fs)
    ensures f in fs && f.byRule && f.dedupKey == Some(key)
  {
    var n := |fs| - 1;
    if key in KeyOf(fs[n]) {
      f := fs[n];
    } else {
      f := KeyHasFinding(fs[..n], key);
    }
  }
}
