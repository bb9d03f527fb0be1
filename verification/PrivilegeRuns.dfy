/** Whole runs of grants and revokes, and the cascade order that leaves an orphan. */
module PrivilegeRuns {
  import opened Collections
  import opened Identifiers
  import opened PrivilegeLedger
  import opened PrivilegeCascade
  import opened PrivilegeMatrices
  import opened LedgerMachine

  method Apply(m: PrivilegeMatrix, op: Operation)
    requires Coherent(m.Value())
    modifies m
    ensures Coherent(m.Value())
    ensures KeepsLedger(op) && old(Sourced(m.Value())) ==>
              Sourced(m.Value()) && LedgerStep(old(LedgerOf(m.Value())), op, LedgerOf(m.Value()))
  {
    ghost var before := m.Value();
    match op {
      case GrantTo(role, privileges, grantor, withOption) => m.GrantFrom(role, privileges, grantor, withOption);
      case RevokeAll(role, privileges) => m.Revoke(role, privileges);
      case RevokeTargeted(role, privileges, grantor, cascade) =>
        ghost var trace := m.RevokeFromCascade(role, privileges, grantor, cascade);
        if Sourced(before) {
          TargetedRevokeRefines(before, role, privileges, grantor, cascade, trace);
        }
      case RevokeOption(role, privileges) => m.RevokeGrantOption(role, privileges);
      case RevokeOptionTargeted(role, privileges, grantor) => m.RevokeGrantOptionFrom(role, privileges, grantor);
      case ForgetProvenance(role, privileges, grantor) => m.RemoveGrantProvenance(role, privileges, grantor);
    }
  }

  /** Every run keeps the matrix coherent. A run of ledger operations is a run of the plain
      ledger: entries are added and removed by the ledger's own rules, and a role holds a
      privilege or option exactly when an entry for it survives. */
  method Replay(m: PrivilegeMatrix, ops: seq<Operation>) returns (ghost ledgers: seq<Ledger>)
    requires Coherent(m.Value())
    modifies m
    ensures Coherent(m.Value())
    ensures old(Sourced(m.Value())) && (forall op :: op in ops ==> KeepsLedger(op)) ==>
              && LedgerRun(ledgers, ops) && ledgers[0] == old(LedgerOf(m.Value()))
              && forall r, p ::
                   && (HasPrivilege(m.Value(), r, p) <==> exists g :: Entry(r, p, g) in ledgers[|ops|].grants)
                   && (HasGrantOption(m.Value(), r, p) <==> exists g :: Entry(r, p, g) in ledgers[|ops|].options)
  {
    ghost var plain := Sourced(m.Value()) && forall op :: op in ops ==> KeepsLedger(op);
    ledgers := [LedgerOf(m.Value())];
    for i := 0 to |ops|
      invariant Coherent(m.Value()) && |ledgers| == i + 1 && ledgers[0] == old(LedgerOf(m.Value()))
      invariant plain ==> Sourced(m.Value()) && ledgers[i] == LedgerOf(m.Value())
      invariant plain ==> forall k :: 0 <= k < i ==> LedgerStep(ledgers[k], ops[k], ledgers[k + 1])
    {
      assert ops[i] in ops;
      Apply(m, ops[i]);
      ledgers := ledgers + [LedgerOf(m.Value())];
    }
    if plain {
      forall r, p {
        HoldsWhatTheLedgerSays(m.Value(), r, p);
      }
    }
  }

  // ------------------------------------------------- why single sources are needed

  const OWNER := ObjectId("", "owner")
  const LEAD := ObjectId("", "lead")
  const DEPUTY := ObjectId("", "deputy")
  const HELPER := ObjectId("", "helper")
  const READER := ObjectId("", "reader")

  /** `deputy` and `helper` hold SELECT with option from the given sources; `deputy`
      passed it on to `reader`. */
  function Shared(leadFrom: set<Role>, deputyFrom: set<Role>, helperFrom: set<Role>): Matrix {
    var holders := map[LEAD := Sel(leadFrom), DEPUTY := Sel(deputyFrom), HELPER := Sel(helperFrom)];
    var sources := Put(Put(Put(map[], LEAD, Select, leadFrom), DEPUTY, Select, deputyFrom), HELPER, Select, helperFrom);
    Matrix(holders[READER := {Select}], holders, Put(sources, READER, Select, {DEPUTY}), sources)
  }

  function Sel(from_: set<Role>): set<Privilege> {
    if from_ == {} then {} else {Select}
  }

  lemma SharedAt(leadFrom: set<Role>, deputyFrom: set<Role>, helperFrom: set<Role>, r: Role, p: Privilege)
    ensures At(Shared(leadFrom, deputyFrom, helperFrom), r, p) ==
            if p != Select then Cell(false, false, {}, {})
            else if r == LEAD then Cell(leadFrom != {}, leadFrom != {}, leadFrom, leadFrom)
            else if r == DEPUTY then Cell(deputyFrom != {}, deputyFrom != {}, deputyFrom, deputyFrom)
            else if r == HELPER then Cell(helperFrom != {}, helperFrom != {}, helperFrom, helperFrom)
            else if r == READER then Cell(true, false, {DEPUTY}, {})
            else Cell(false, false, {}, {})
  {
    assert LEAD != DEPUTY && LEAD != HELPER && DEPUTY != HELPER && READER != LEAD && READER != DEPUTY && READER != HELPER;
  }

  lemma SharedHasNoEmpty(leadFrom: set<Role>, deputyFrom: set<Role>, helperFrom: set<Role>)
    ensures var m := Shared(leadFrom, deputyFrom, helperFrom); NoEmptySources(m.sources) && NoEmptySources(m.optionSources)
  {
    var empty: SourceMap := map[];
    assert NoEmptySources(empty);
  }

  lemma SharedIsSourced(leadFrom: set<Role>, deputyFrom: set<Role>, helperFrom: set<Role>)
    ensures Sourced(Shared(leadFrom, deputyFrom, helperFrom))
  {
    var m := Shared(leadFrom, deputyFrom, helperFrom);
    SharedHasNoEmpty(leadFrom, deputyFrom, helperFrom);
    forall r, p ensures CellCoherent(At(m, r, p)) && CellSourced(At(m, r, p)) && (p == All ==> !At(m, r, p).held) {
      SharedAt(leadFrom, deputyFrom, helperFrom, r, p);
    }
  }

  lemma SharedStrippedAt(deputyFrom: set<Role>, helperFrom: set<Role>, lost: Role, r: Role, p: Privilege)
    requires lost != DEPUTY
    ensures var m := Shared({}, deputyFrom, helperFrom); var n := Shared({}, deputyFrom - {lost}, helperFrom - {lost});
            At(n, r, p) == if p == Select && lost in At(m, r, p).sources
                           then Changed(At(m, r, p), RemoveSource(lost)) else At(m, r, p)
    ensures lost in At(Shared({}, deputyFrom, helperFrom), r, Select).sources <==>
            (r == DEPUTY && lost in deputyFrom) || (r == HELPER && lost in helperFrom)
  {
    SharedAt({}, deputyFrom, helperFrom, r, p);
    SharedAt({}, deputyFrom, helperFrom, r, Select);
    SharedAt({}, deputyFrom - {lost}, helperFrom - {lost}, r, p);
  }

  /** Taking one source away everywhere, when it gave nothing to `reader`. */
  lemma SharedStripped(deputyFrom: set<Role>, helperFrom: set<Role>, deputyLeft: set<Role>, helperLeft: set<Role>, lost: Role)
    requires lost != DEPUTY && deputyLeft == deputyFrom - {lost} && helperLeft == helperFrom - {lost}
    ensures Stripped(Shared({}, deputyFrom, helperFrom), Shared({}, deputyLeft, helperLeft), lost, Select, {})
    ensures forall r :: lost in At(Shared({}, deputyFrom, helperFrom), r, Select).sources <==>
              (r == DEPUTY && lost in deputyFrom) || (r == HELPER && lost in helperFrom)
  {
    var m, n := Shared({}, deputyFrom, helperFrom), Shared({}, deputyLeft, helperLeft);
    SharedHasNoEmpty({}, deputyLeft, helperLeft);
    forall r, p
      ensures At(n, r, p) == if p == Select && lost in At(m, r, p).sources && r !in {}
                             then Changed(At(m, r, p), RemoveSource(lost)) else At(m, r, p)
      ensures lost in At(m, r, Select).sources <==> (r == DEPUTY && lost in deputyFrom) || (r == HELPER && lost in helperFrom)
    {
      SharedStrippedAt(deputyFrom, helperFrom, lost, r, p);
    }
  }

  /** A strip step queues exactly the receivers it is given. */
  lemma StripStep(deputyFrom: set<Role>, helperFrom: set<Role>, deputyLeft: set<Role>, helperLeft: set<Role>, lost: Role,
                  visited: set<Pair>, queue: seq<Pair>, from_: CascadeState, to: CascadeState)
    requires deputyLeft == deputyFrom - {lost} && helperLeft == helperFrom - {lost}
    requires lost == LEAD || (lost == HELPER && helperFrom == {})
    requires (lost, Select) !in visited
    requires forall r, q :: (r, q) in queue <==>
               q == Select && ((r == DEPUTY && lost in deputyFrom) || (r == HELPER && lost in helperFrom))
    requires from_ == CascadeState(Shared({}, deputyFrom, helperFrom), [(lost, Select)], visited)
    requires to == CascadeState(Shared({}, deputyLeft, helperLeft), queue, visited + {(lost, Select)})
    ensures StepsTo(from_, to)
  {
    SharedStripped(deputyFrom, helperFrom, deputyLeft, helperLeft, lost);
    SharedAt({}, deputyFrom, helperFrom, lost, Select);
    SharedAt({}, deputyFrom, helperFrom, lost, All);
    var pending := [(lost, Select)];
    assert pending[..|pending| - 1] == [] && queue[0..] == queue;
  }

  const BEFORE := Shared({OWNER}, {LEAD, HELPER}, {LEAD})
  const START := Shared({}, {LEAD, HELPER}, {LEAD})
  const MIDDLE := Shared({}, {HELPER}, {})
  const END := Shared({}, {}, {})
  const LEAD_ONLY: set<Pair> := {(LEAD, Select)}
  const LEAD_DEPUTY: set<Pair> := {(LEAD, Select), (DEPUTY, Select)}
  const ALL_THREE: set<Pair> := {(LEAD, Select), (DEPUTY, Select), (HELPER, Select)}

  const FIRST := CascadeState(START, [(LEAD, Select)], {})
  const SECOND := CascadeState(MIDDLE, [(HELPER, Select), (DEPUTY, Select)], LEAD_ONLY)
  const THIRD := CascadeState(MIDDLE, [(HELPER, Select)], LEAD_DEPUTY)
  const FOURTH := CascadeState(END, [(DEPUTY, Select)], ALL_THREE)
  const FIFTH := CascadeState(END, [], ALL_THREE)

  lemma FiveStatesRun(a: CascadeState, b: CascadeState, c: CascadeState, d: CascadeState, e: CascadeState)
    requires StepsTo(a, b) && StepsTo(b, c) && StepsTo(c, d) && StepsTo(d, e)
    ensures CascadeRun([a, b, c, d, e])
  {
    var trace := [a, b, c, d, e];
    forall i | 0 < i < |trace| ensures StepsTo(trace[i - 1], trace[i]) {
      assert i == 1 || i == 2 || i == 3 || i == 4;
    }
  }

  /** With two grantors the cascade can pass over a role that still has an option and
      never come back to it: `reader` keeps what `deputy` may no longer give. */
  lemma TwoGrantorsCanLeaveAnOrphan()
    ensures Sourced(BEFORE) && Effect(BEFORE, START, LEAD, {Select}, RemoveSource(OWNER))
    ensures CascadeRun([FIRST, SECOND, THIRD, FOURTH, FIFTH])
    ensures Orphan(BEFORE, END, LEAD, DEPUTY, Select, READER)
  {
    SharedIsSourced({OWNER}, {LEAD, HELPER}, {LEAD});
    LeadIsRevoked();
    LeadIsStripped();
    DeputyIsPassedOver();
    HelperIsStripped();
    DeputyIsNotRevisited();
    FiveStatesRun(FIRST, SECOND, THIRD, FOURTH, FIFTH);
    ReaderIsOrphaned();
  }

  lemma LeadIsRevoked()
    ensures Effect(BEFORE, START, LEAD, {Select}, RemoveSource(OWNER))
  {
    SharedHasNoEmpty({}, {LEAD, HELPER}, {LEAD});
    forall r, p ensures At(START, r, p) ==
        if r == LEAD && p in {Select} then Changed(At(BEFORE, r, p), RemoveSource(OWNER)) else At(BEFORE, r, p)
    {
      SharedAt({OWNER}, {LEAD, HELPER}, {LEAD}, r, p);
      SharedAt({}, {LEAD, HELPER}, {LEAD}, r, p);
    }
  }

  lemma LeadIsStripped()
    ensures StepsTo(FIRST, SECOND)
  {
    var queue: seq<Pair> := [(HELPER, Select), (DEPUTY, Select)];
    TwoQueued(queue, HELPER, DEPUTY);
    WithoutOne({LEAD, HELPER}, LEAD, HELPER);
    assert {} + {(LEAD, Select)} == LEAD_ONLY;
    StripStep({LEAD, HELPER}, {LEAD}, {HELPER}, {}, LEAD, {}, queue, FIRST, SECOND);
  }

  lemma TwoQueued(queue: seq<Pair>, a: Role, b: Role)
    requires queue == [(a, Select), (b, Select)]
    ensures forall r, q :: (r, q) in queue <==> q == Select && (r == a || r == b)
  {
  }

  lemma WithoutOne(roles: set<Role>, a: Role, b: Role)
    requires roles == {a, b} && a != b
    ensures roles - {a} == {b} && {a} - {a} == {}
  {
  }

  lemma DeputyIsPassedOver()
    ensures StepsTo(SECOND, THIRD)
  {
    SharedAt({}, {HELPER}, {}, DEPUTY, Select);
    assert [(HELPER, Select), (DEPUTY, Select)][..1] == [(HELPER, Select)];
    assert LEAD_ONLY + {(DEPUTY, Select)} == LEAD_DEPUTY;
  }

  lemma HelperIsStripped()
    ensures StepsTo(THIRD, FOURTH)
  {
    assert (HELPER, Select) !in LEAD_DEPUTY;
    var queue: seq<Pair> := [(DEPUTY, Select)];
    assert forall r, q :: (r, q) in queue <==> q == Select && r == DEPUTY;
    assert LEAD_DEPUTY + {(HELPER, Select)} == ALL_THREE;
    StripStep({HELPER}, {}, {}, {}, HELPER, LEAD_DEPUTY, queue, THIRD, FOURTH);
  }

  lemma DeputyIsNotRevisited()
    ensures StepsTo(FOURTH, FIFTH)
  {
    assert [(DEPUTY, Select)][..0] == [];
  }

  lemma ReaderIsOrphaned()
    ensures Orphan(BEFORE, END, LEAD, DEPUTY, Select, READER)
  {
    SharedAt({OWNER}, {LEAD, HELPER}, {LEAD}, DEPUTY, Select);
    SharedAt({}, {}, {}, DEPUTY, All);
    SharedAt({}, {}, {}, DEPUTY, Select);
    SharedAt({}, {}, {}, READER, Select);
    assert DEPUTY in At(END, READER, Select).sources;
  }
}
