/** The plain ledger as a state machine of its own: entries appear by grants and disappear by
    revokes. The matrix runs in step with it. */
module LedgerMachine {
  import opened Collections
  import opened Identifiers
  import opened PrivilegeLedger
  import opened PrivilegeCascade

  datatype Operation =
    | GrantTo(role: Role, privileges: set<Privilege>, grantor: Option<Role>, withOption: bool)
    | RevokeAll(role: Role, privileges: set<Privilege>)
    | RevokeTargeted(role: Role, privileges: set<Privilege>, grantor: Option<Role>, cascade: bool)
    | RevokeOption(role: Role, privileges: set<Privilege>)
    | RevokeOptionTargeted(role: Role, privileges: set<Privilege>, grantor: Option<Role>)
    | ForgetProvenance(role: Role, privileges: set<Privilege>, grantor: Option<Role>)

  /** Operations whose every effect the ledger can express. */
  predicate KeepsLedger(op: Operation) {
    match op
    case GrantTo(_, privileges, grantor, _) => grantor.Some? && All !in privileges
    case RevokeOptionTargeted(_, _, _) | ForgetProvenance(_, _, _) => false
    case _ => true
  }

  /** `ALL` in a targeted revoke stands for whatever the role has entries for. */
  function Wanted(l: Ledger, role: Role, privileges: set<Privilege>): set<Privilege> {
    if All in privileges then set e | e in l.grants && e.grantee == role :: e.privilege else privileges
  }

  function LedgerRevokeBy(l: Ledger, role: Role, privileges: set<Privilege>, grantor: Option<Role>): Ledger {
    if grantor.Some? then LedgerRevokeFrom(l, role, privileges, grantor.value) else LedgerRevoke(l, role, privileges)
  }

  /** Everything one grantor gave of one privilege disappears. */
  function LedgerStrip(l: Ledger, lost: Role, p: Privilege): Ledger {
    Ledger(set e | e in l.grants && !(e.grantor == lost && e.privilege == p),
           set e | e in l.options && !(e.grantor == lost && e.privilege == p))
  }

  datatype LedgerState = LedgerState(ledger: Ledger, pending: seq<Pair>, visited: set<Pair>)

  ghost predicate LedgerStepsTo(a: LedgerState, b: LedgerState) {
    a.pending != [] &&
    var rest := a.pending[..|a.pending| - 1];
    var (lost, p) := a.pending[|a.pending| - 1];
    if (lost, p) in a.visited then b == LedgerState(a.ledger, rest, a.visited)
    else if exists g :: Entry(lost, p, g) in a.ledger.options then b == LedgerState(a.ledger, rest, a.visited + {(lost, p)})
    else
      && b.ledger == LedgerStrip(a.ledger, lost, p)
      && b.visited == a.visited + {(lost, p)}
      && |b.pending| >= |rest| && b.pending[..|rest|] == rest
      && forall r, q :: (r, q) in b.pending[|rest|..] <==> q == p && Entry(r, p, lost) in a.ledger.grants
  }

  ghost predicate LedgerCascade(trace: seq<LedgerState>) {
    forall i :: 0 < i < |trace| ==> LedgerStepsTo(trace[i - 1], trace[i])
  }

  /** A cascade from `l`: the targeted revoke, then strips until nothing is pending. */
  ghost predicate Cascades(trace: seq<LedgerState>, l: Ledger, role: Role, wanted: set<Privilege>, grantor: Option<Role>) {
    && |trace| > 0 && LedgerCascade(trace)
    && trace[0].ledger == LedgerRevokeBy(l, role, wanted, grantor) && trace[0].visited == {}
    && (forall x, p :: (x, p) in trace[0].pending <==> x == role && p in wanted)
    && trace[|trace| - 1].pending == []
  }

  /** One operation on the plain ledger. */
  ghost predicate LedgerStep(l: Ledger, op: Operation, n: Ledger) {
    match op
    case GrantTo(role, privileges, grantor, withOption) =>
      grantor.Some? && n == LedgerGrant(l, role, privileges, grantor.value, withOption)
    case RevokeAll(role, privileges) => n == LedgerRevoke(l, role, privileges)
    case RevokeOption(role, privileges) => n == LedgerRevokeOption(l, role, privileges)
    case RevokeTargeted(role, privileges, grantor, cascade) =>
      var wanted := Wanted(l, role, privileges);
      if cascade then exists trace: seq<LedgerState> :: Cascades(trace, l, role, wanted, grantor) && trace[|trace| - 1].ledger == n
      else n == LedgerRevokeBy(l, role, wanted, grantor)
    case RevokeOptionTargeted(_, _, _) | ForgetProvenance(_, _, _) => false
  }

  ghost predicate LedgerRun(ledgers: seq<Ledger>, ops: seq<Operation>) {
    && |ledgers| == |ops| + 1
    && forall k :: 0 <= k < |ops| ==> LedgerStep(ledgers[k], ops[k], ledgers[k + 1])
  }

  // ------------------------------------------------- the matrix follows

  function LedgerStateOf(s: CascadeState): LedgerState {
    LedgerState(LedgerOf(s.matrix), s.pending, s.visited)
  }

  lemma StripRefinesLedger(m: Matrix, n: Matrix, lost: Role, p: Privilege)
    requires Coherent(m) && Stripped(m, n, lost, p, {})
    ensures LedgerOf(n) == LedgerStrip(LedgerOf(m), lost, p)
  {
    var l := LedgerStrip(LedgerOf(m), lost, p);
    forall e ensures (e in LedgerOf(n).grants <==> e in l.grants) && (e in LedgerOf(n).options <==> e in l.options) {
      EntryAfterStrip(m, n, lost, p, e);
    }
    LedgersEqual(LedgerOf(n), l);
  }

  lemma EntryAfterStrip(m: Matrix, n: Matrix, lost: Role, p: Privilege, e: Entry)
    requires Coherent(m) && Stripped(m, n, lost, p, {})
    ensures var l := LedgerStrip(LedgerOf(m), lost, p);
            (e in LedgerOf(n).grants <==> e in l.grants) && (e in LedgerOf(n).options <==> e in l.options)
  {
    CellAfterStrip(m, n, lost, p, e.grantee, e.privilege, e.grantor);
    var c, d := At(m, e.grantee, e.privilege), At(n, e.grantee, e.privilege);
    assert (e in LedgerOf(m).grants <==> e.grantor in c.sources) && (e in LedgerOf(m).options <==> e.grantor in c.optionSources);
    assert (e in LedgerOf(n).grants <==> e.grantor in d.sources) && (e in LedgerOf(n).options <==> e.grantor in d.optionSources);
  }

  lemma CellAfterStrip(m: Matrix, n: Matrix, lost: Role, p: Privilege, r: Role, q: Privilege, g: Role)
    requires Coherent(m) && Stripped(m, n, lost, p, {})
    ensures g in At(n, r, q).sources <==> g in At(m, r, q).sources && !(g == lost && q == p)
    ensures g in At(n, r, q).optionSources <==> g in At(m, r, q).optionSources && !(g == lost && q == p)
  {
    assert CellCoherent(At(m, r, q));
  }

  /** One iteration on the matrix is one iteration on its ledger. */
  lemma StepRefinesLedger(a: CascadeState, b: CascadeState)
    requires Sourced(a.matrix) && StepsTo(a, b)
    ensures Sourced(b.matrix) && LedgerStepsTo(LedgerStateOf(a), LedgerStateOf(b))
  {
    var (lost, p) := a.pending[|a.pending| - 1];
    HoldsWhatTheLedgerSays(a.matrix, lost, p);
    if (lost, p) !in a.visited && !HasGrantOption(a.matrix, lost, p) {
      StripRefinesLedger(a.matrix, b.matrix, lost, p);
      StripKeeps(a.matrix, b.matrix, lost, p, {});
    }
  }

  function LedgerTrace(trace: seq<CascadeState>): (r: seq<LedgerState>)
    ensures |r| == |trace| && forall i :: 0 <= i < |trace| ==> r[i] == LedgerStateOf(trace[i])
  {
    Mapped(trace, s => LedgerStateOf(s))
  }

  lemma {:induction false} RunStaysSourced(trace: seq<CascadeState>, i: nat)
    requires i < |trace| && CascadeRun(trace) && Sourced(trace[0].matrix)
    ensures Sourced(trace[i].matrix)
  {
    if i > 0 {
      RunStaysSourced(trace, i - 1);
      StepRefinesLedger(trace[i - 1], trace[i]);
    }
  }

  lemma RunRefinesLedger(trace: seq<CascadeState>)
    requires |trace| > 0 && CascadeRun(trace) && Sourced(trace[0].matrix)
    ensures LedgerCascade(LedgerTrace(trace))
  {
    var r := LedgerTrace(trace);
    forall i | 0 < i < |r| ensures LedgerStepsTo(r[i - 1], r[i]) {
      RunStaysSourced(trace, i - 1);
      StepRefinesLedger(trace[i - 1], trace[i]);
    }
  }

  lemma ExpandedIsWanted(m: Matrix, role: Role, privileges: set<Privilege>)
    requires Sourced(m)
    ensures Expanded(m, role, privileges) == Wanted(LedgerOf(m), role, privileges)
  {
    if All in privileges {
      forall p ensures p in Expanded(m, role, privileges) <==> p in Wanted(LedgerOf(m), role, privileges) {
        var c := At(m, role, p);
        assert CellCoherent(c) && CellSourced(c) && (p == All ==> !c.held);
        if c.held {
          var g :| g in c.sources;
          assert Entry(role, p, g) in LedgerOf(m).grants;
        }
      }
    }
  }

  /** The matrix's targeted revoke, cascading or not, is the ledger's. */
  lemma TargetedRevokeRefines(m: Matrix, role: Role, privileges: set<Privilege>, grantor: Option<Role>, cascade: bool,
                              trace: seq<CascadeState>)
    requires Sourced(m) && |trace| > 0 && CascadeRun(trace) && trace[0].visited == {}
    requires Effect(m, trace[0].matrix, role, Expanded(m, role, privileges),
                    if grantor.Some? then RemoveSource(grantor.value) else Clear)
    requires if cascade
             then (forall x, p :: (x, p) in trace[0].pending <==> x == role && p in Expanded(m, role, privileges))
                  && trace[|trace| - 1].pending == []
             else |trace| == 1
    ensures Sourced(trace[|trace| - 1].matrix)
    ensures LedgerStep(LedgerOf(m), RevokeTargeted(role, privileges, grantor, cascade), LedgerOf(trace[|trace| - 1].matrix))
  {
    FirstRevokeRefines(m, trace[0].matrix, role, privileges, grantor);
    RunStaysSourced(trace, |trace| - 1);
    if cascade {
      RunRefinesLedger(trace);
      assert Cascades(LedgerTrace(trace), LedgerOf(m), role, Wanted(LedgerOf(m), role, privileges), grantor);
    }
  }

  lemma FirstRevokeRefines(m: Matrix, n: Matrix, role: Role, privileges: set<Privilege>, grantor: Option<Role>)
    requires Sourced(m)
    requires Effect(m, n, role, Expanded(m, role, privileges), if grantor.Some? then RemoveSource(grantor.value) else Clear)
    ensures Sourced(n) && Expanded(m, role, privileges) == Wanted(LedgerOf(m), role, privileges)
    ensures LedgerOf(n) == LedgerRevokeBy(LedgerOf(m), role, Wanted(LedgerOf(m), role, privileges), grantor)
  {
    ExpandedIsWanted(m, role, privileges);
    var wanted := Expanded(m, role, privileges);
    assert All !in wanted;
    assert Expanded(m, role, wanted) == wanted && Reached(wanted) == wanted;
    if grantor.Some? {
      TargetedRevokeRefinesLedger(m, n, role, wanted, grantor.value);
    } else {
      RevokeRefinesLedger(m, n, role, wanted);
    }
  }
}
