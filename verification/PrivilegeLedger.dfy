/** Relation privileges as values: the matrix, the ledger it stands for, and what each
    operation does to both. */
module PrivilegeLedger {
  import opened Collections
  import opened Identifiers

  type Role = ObjectId

  datatype Privilege = Select | Insert | Update | Delete | Truncate | References | Trigger | All | Maintain

  type HeldMap = map<Role, set<Privilege>>
  type SourceMap = map<(Role, Privilege), set<Role>>

  /** Effective privileges, grant options, and the provenance of each. */
  datatype Matrix = Matrix(grants: HeldMap, options: HeldMap, sources: SourceMap, optionSources: SourceMap)

  /** Everything the matrix says about one role and one privilege. */
  datatype Cell = Cell(held: bool, option: bool, sources: set<Role>, optionSources: set<Role>)

  predicate Holds(m: HeldMap, r: Role, p: Privilege) {
    r in m && p in m[r]
  }

  function From(m: SourceMap, r: Role, p: Privilege): set<Role> {
    if (r, p) in m then m[(r, p)] else {}
  }

  function At(m: Matrix, r: Role, p: Privilege): Cell {
    Cell(Holds(m.grants, r, p), Holds(m.options, r, p), From(m.sources, r, p), From(m.optionSources, r, p))
  }

  predicate CellCoherent(c: Cell) {
    && (c.option ==> c.held)
    && c.optionSources <= c.sources
    && (c.sources != {} ==> c.held)
    && (c.optionSources != {} ==> c.option)
  }

  predicate NoEmptySources(m: SourceMap) {
    forall k :: k in m ==> m[k] != {}
  }

  /** What every mutator keeps: options within grants, option sources within grant
      sources, no empty provenance, and provenance only for what is held. */
  ghost predicate Coherent(m: Matrix) {
    && NoEmptySources(m.sources) && NoEmptySources(m.optionSources)
    && forall r, p :: CellCoherent(At(m, r, p))
  }

  /** Everything held has a recorded source, and the literal `ALL` is never stored. */
  ghost predicate Sourced(m: Matrix) {
    && Coherent(m)
    && forall r, p :: CellSourced(At(m, r, p)) && (p == All ==> !At(m, r, p).held)
  }

  predicate CellSourced(c: Cell) {
    (c.held ==> c.sources != {}) && (c.option ==> c.optionSources != {})
  }

  predicate HasPrivilege(m: Matrix, role: Role, p: Privilege) {
    Holds(m.grants, role, p) || (p != All && Holds(m.grants, role, All))
  }

  predicate HasGrantOption(m: Matrix, role: Role, p: Privilege) {
    Holds(m.options, role, p) || (p != All && Holds(m.options, role, All))
  }

  /** A set of sources recorded for one key; an empty set is not stored. */
  function Put(m: SourceMap, r: Role, p: Privilege, s: set<Role>): (n: SourceMap)
    ensures forall x, q :: From(n, x, q) == if x == r && q == p then s else From(m, x, q)
    ensures NoEmptySources(m) ==> NoEmptySources(n)
  {
    if s == {} then m - {(r, p)} else m[(r, p) := s]
  }

  /** Every requested key of a role dropped. */
  function Dropped(m: SourceMap, role: Role, privileges: set<Privilege>): (n: SourceMap)
    ensures forall x, q :: From(n, x, q) == if x == role && Requested(privileges, q) then {} else From(m, x, q)
    ensures NoEmptySources(m) ==> NoEmptySources(n)
  {
    map k | k in m && !(k.0 == role && Requested(privileges, k.1)) :: m[k]
  }

  /** The requested privileges taken out of a role's set. */
  function Taken(m: HeldMap, role: Role, privileges: set<Privilege>): (n: HeldMap)
    ensures forall x, q :: Holds(n, x, q) <==> Holds(m, x, q) && !(x == role && Requested(privileges, q))
  {
    if role in m then m[role := if All in privileges then {} else m[role] - privileges] else m
  }

  /** One privilege taken out of a role's set. */
  function Minus(m: HeldMap, role: Role, p: Privilege): (n: HeldMap)
    ensures forall x, q :: Holds(n, x, q) <==> Holds(m, x, q) && !(x == role && q == p)
  {
    if role in m then m[role := m[role] - {p}] else m
  }

  /** Privileges added to a role's set. */
  function Extended(m: HeldMap, role: Role, privileges: set<Privilege>): (n: HeldMap)
    ensures forall x, q :: Holds(n, x, q) <==> Holds(m, x, q) || (x == role && q in privileges)
  {
    m[role := (if role in m then m[role] else {}) + privileges]
  }

  // ------------------------------------------------------------- the ledger

  /** One recorded grant: who holds what, and who gave it. */
  datatype Entry = Entry(grantee: Role, privilege: Privilege, grantor: Role)

  /** The plain reading of a matrix: grants given, and those given with grant option. */
  datatype Ledger = Ledger(grants: set<Entry>, options: set<Entry>)

  function EntriesOf(m: SourceMap): (s: set<Entry>)
    ensures forall e :: e in s <==> e.grantor in From(m, e.grantee, e.privilege)
  {
    set k, g | k in m && g in m[k] :: Entry(k.0, k.1, g)
  }

  function LedgerOf(m: Matrix): (l: Ledger)
    ensures forall e :: e in l.grants <==> e.grantor in At(m, e.grantee, e.privilege).sources
    ensures forall e :: e in l.options <==> e.grantor in At(m, e.grantee, e.privilege).optionSources
  {
    Ledger(EntriesOf(m.sources), EntriesOf(m.optionSources))
  }

  /** A role holds a privilege or option exactly when a ledger entry for it survives. */
  lemma HoldsWhatTheLedgerSays(m: Matrix, role: Role, p: Privilege)
    requires Sourced(m)
    ensures HasPrivilege(m, role, p) <==> exists g :: Entry(role, p, g) in LedgerOf(m).grants
    ensures HasGrantOption(m, role, p) <==> exists g :: Entry(role, p, g) in LedgerOf(m).options
    ensures LedgerOf(m).options <= LedgerOf(m).grants
  {
    var c := At(m, role, p);
    assert CellCoherent(c) && CellSourced(c) && !At(m, role, All).held && CellCoherent(At(m, role, All));
    if c.held {
      var g :| g in c.sources;
      assert Entry(role, p, g) in LedgerOf(m).grants;
    }
    if c.option {
      var g :| g in c.optionSources;
      assert Entry(role, p, g) in LedgerOf(m).options;
    }
    forall e | e in LedgerOf(m).options ensures e in LedgerOf(m).grants {
      assert CellCoherent(At(m, e.grantee, e.privilege));
    }
  }

  function LedgerGrant(l: Ledger, role: Role, privileges: set<Privilege>, grantor: Role, withOption: bool): Ledger {
    var given := set p | p in privileges :: Entry(role, p, grantor);
    Ledger(l.grants + given, if withOption then l.options + given else l.options)
  }

  predicate Requested(privileges: set<Privilege>, p: Privilege) {
    All in privileges || p in privileges
  }

  predicate Names(e: Entry, role: Role, privileges: set<Privilege>) {
    e.grantee == role && Requested(privileges, e.privilege)
  }

  function LedgerRevoke(l: Ledger, role: Role, privileges: set<Privilege>): Ledger {
    Ledger(set e | e in l.grants && !Names(e, role, privileges), set e | e in l.options && !Names(e, role, privileges))
  }

  function LedgerRevokeOption(l: Ledger, role: Role, privileges: set<Privilege>): Ledger {
    l.(options := set e | e in l.options && !Names(e, role, privileges))
  }

  function LedgerRevokeFrom(l: Ledger, role: Role, privileges: set<Privilege>, grantor: Role): Ledger {
    Ledger(set e | e in l.grants && !(Names(e, role, privileges) && e.grantor == grantor),
           set e | e in l.options && !(Names(e, role, privileges) && e.grantor == grantor))
  }

  // ------------------------------------------------------------- operations on one cell

  datatype Change =
    | Give(grantor: Option<Role>, withOption: bool)
    | Clear
    | ClearOption
    | ClearSources
    | RemoveSource(source: Role)
    | RemoveProvenance(source: Role)
    | RemoveOptionSource(source: Role)
    | ClearOptionSources

  function Changed(c: Cell, change: Change): Cell {
    match change
    case Give(grantor, withOption) =>
      var given := if grantor.Some? then {grantor.value} else {};
      Cell(true, c.option || withOption, c.sources + given, if withOption then c.optionSources + given else c.optionSources)
    case Clear => Cell(false, false, {}, {})
    case ClearOption => c.(option := false, optionSources := {})
    case ClearSources => c.(sources := {}, optionSources := {})
    // The privilege goes with its last source, and so does the option; an option
    // without recorded sources goes with the privilege.
    case RemoveSource(g) =>
      var s, o := c.sources - {g}, c.optionSources - {g};
      Cell(c.held && s != {}, c.option && !(o == {} && (c.optionSources != {} || s == {})), s, o)
    case RemoveProvenance(g) => c.(sources := c.sources - {g}, optionSources := c.optionSources - {g})
    case RemoveOptionSource(g) =>
      var o := c.optionSources - {g};
      c.(option := c.option && o != {}, optionSources := o)
    case ClearOptionSources => c.(optionSources := {})
  }

  /** One operation: the requested cells of one role change, all others stay. */
  ghost predicate Effect(m: Matrix, n: Matrix, role: Role, todo: set<Privilege>, change: Change) {
    && (forall r, p :: At(n, r, p) == if r == role && p in todo then Changed(At(m, r, p), change) else At(m, r, p))
    && NoEmptySources(n.sources) && NoEmptySources(n.optionSources)
  }

  lemma EffectKeepsCoherent(m: Matrix, n: Matrix, role: Role, todo: set<Privilege>, change: Change)
    requires Coherent(m) && Effect(m, n, role, todo, change)
    ensures Coherent(n)
  {
    forall r, p ensures CellCoherent(At(n, r, p)) {
      assert CellCoherent(At(m, r, p));
    }
  }

  /** The privileges an untargeted revoke reaches. */
  function Reached(privileges: set<Privilege>): (r: set<Privilege>)
    ensures forall p :: p in r <==> Requested(privileges, p)
  {
    set p: Privilege | Requested(privileges, p)
  }

  /** `ALL` in a targeted revoke stands for whatever the role holds. */
  function Expanded(m: Matrix, role: Role, privileges: set<Privilege>): (r: set<Privilege>)
    ensures All in privileges ==> forall p :: p in r <==> At(m, role, p).held && p != All
  {
    if All in privileges then (if role in m.grants then m.grants[role] - {All} else {}) else privileges
  }

  /** The changes of the ledger operations keep everything held sourced. */
  lemma EffectKeepsSourced(m: Matrix, n: Matrix, role: Role, todo: set<Privilege>, change: Change)
    requires Sourced(m) && Effect(m, n, role, todo, change)
    requires (change.Give? && change.grantor.Some? && All !in todo) || change in {Clear, ClearOption} || change.RemoveSource?
    ensures Sourced(n)
  {
    EffectKeepsCoherent(m, n, role, todo, change);
    forall r, p ensures CellSourced(At(n, r, p)) && (p == All ==> !At(n, r, p).held) {
      assert CellSourced(At(m, r, p)) && CellCoherent(At(m, r, p));
    }
  }

  /** An entry survives an operation as its cell says. */
  lemma EntryAfter(m: Matrix, n: Matrix, role: Role, todo: set<Privilege>, change: Change, e: Entry)
    requires Effect(m, n, role, todo, change)
    ensures var c := At(m, e.grantee, e.privilege);
            var d := if e.grantee == role && e.privilege in todo then Changed(c, change) else c;
            && (e in LedgerOf(m).grants <==> e.grantor in c.sources)
            && (e in LedgerOf(m).options <==> e.grantor in c.optionSources)
            && (e in LedgerOf(n).grants <==> e.grantor in d.sources)
            && (e in LedgerOf(n).options <==> e.grantor in d.optionSources)
  {
    assert At(n, e.grantee, e.privilege).sources == From(n.sources, e.grantee, e.privilege);
  }

  lemma LedgersEqual(a: Ledger, b: Ledger)
    requires forall e :: (e in a.grants <==> e in b.grants) && (e in a.options <==> e in b.options)
    ensures a == b
  {
    assert a.grants == b.grants && a.options == b.options;
  }

  lemma EntryAfterGrant(m: Matrix, n: Matrix, role: Role, privileges: set<Privilege>, grantor: Role, withOption: bool, e: Entry)
    requires Effect(m, n, role, privileges, Give(Some(grantor), withOption))
    ensures var l := LedgerGrant(LedgerOf(m), role, privileges, grantor, withOption);
            (e in LedgerOf(n).grants <==> e in l.grants) && (e in LedgerOf(n).options <==> e in l.options)
  {
    EntryAfter(m, n, role, privileges, Give(Some(grantor), withOption), e);
  }

  /** A grant from a known grantor records exactly its entries. */
  lemma GrantRefinesLedger(m: Matrix, n: Matrix, role: Role, privileges: set<Privilege>, grantor: Role, withOption: bool)
    requires Sourced(m) && All !in privileges && Effect(m, n, role, privileges, Give(Some(grantor), withOption))
    ensures Sourced(n) && LedgerOf(n) == LedgerGrant(LedgerOf(m), role, privileges, grantor, withOption)
  {
    EffectKeepsSourced(m, n, role, privileges, Give(Some(grantor), withOption));
    var l := LedgerGrant(LedgerOf(m), role, privileges, grantor, withOption);
    forall e ensures (e in LedgerOf(n).grants <==> e in l.grants) && (e in LedgerOf(n).options <==> e in l.options) {
      EntryAfterGrant(m, n, role, privileges, grantor, withOption, e);
    }
    LedgersEqual(LedgerOf(n), l);
  }

  lemma RevokeRefinesLedger(m: Matrix, n: Matrix, role: Role, privileges: set<Privilege>)
    requires Sourced(m) && Effect(m, n, role, Reached(privileges), Clear)
    ensures Sourced(n) && LedgerOf(n) == LedgerRevoke(LedgerOf(m), role, privileges)
  {
    EffectKeepsSourced(m, n, role, Reached(privileges), Clear);
    var l := LedgerRevoke(LedgerOf(m), role, privileges);
    forall e ensures (e in LedgerOf(n).grants <==> e in l.grants) && (e in LedgerOf(n).options <==> e in l.options) {
      EntryAfter(m, n, role, Reached(privileges), Clear, e);
    }
    LedgersEqual(LedgerOf(n), l);
  }

  lemma OptionRevokeRefinesLedger(m: Matrix, n: Matrix, role: Role, privileges: set<Privilege>)
    requires Sourced(m) && Effect(m, n, role, Reached(privileges), ClearOption)
    ensures Sourced(n) && LedgerOf(n) == LedgerRevokeOption(LedgerOf(m), role, privileges)
  {
    EffectKeepsSourced(m, n, role, Reached(privileges), ClearOption);
    var l := LedgerRevokeOption(LedgerOf(m), role, privileges);
    forall e ensures (e in LedgerOf(n).grants <==> e in l.grants) && (e in LedgerOf(n).options <==> e in l.options) {
      EntryAfter(m, n, role, Reached(privileges), ClearOption, e);
    }
    LedgersEqual(LedgerOf(n), l);
  }

  lemma EntryAfterTargetedRevoke(m: Matrix, n: Matrix, role: Role, privileges: set<Privilege>, grantor: Role, e: Entry)
    requires Sourced(m) && Effect(m, n, role, Expanded(m, role, privileges), RemoveSource(grantor))
    ensures var l := LedgerRevokeFrom(LedgerOf(m), role, privileges, grantor);
            (e in LedgerOf(n).grants <==> e in l.grants) && (e in LedgerOf(n).options <==> e in l.options)
  {
    EntryAfter(m, n, role, Expanded(m, role, privileges), RemoveSource(grantor), e);
    var c := At(m, e.grantee, e.privilege);
    assert CellCoherent(c) && (e.privilege == All ==> !c.held);
  }

  /** A targeted revoke removes that grantor's entries and nothing another grantor gave. */
  lemma TargetedRevokeRefinesLedger(m: Matrix, n: Matrix, role: Role, privileges: set<Privilege>, grantor: Role)
    requires Sourced(m) && Effect(m, n, role, Expanded(m, role, privileges), RemoveSource(grantor))
    ensures Sourced(n) && LedgerOf(n) == LedgerRevokeFrom(LedgerOf(m), role, privileges, grantor)
  {
    var todo := Expanded(m, role, privileges);
    EffectKeepsSourced(m, n, role, todo, RemoveSource(grantor));
    var l := LedgerRevokeFrom(LedgerOf(m), role, privileges, grantor);
    forall e ensures (e in LedgerOf(n).grants <==> e in l.grants) && (e in LedgerOf(n).options <==> e in l.options) {
      EntryAfterTargetedRevoke(m, n, role, privileges, grantor, e);
    }
    LedgersEqual(LedgerOf(n), l);
  }
}
