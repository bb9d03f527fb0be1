/** What each privilege operation does, told of the four maps themselves. */
module PrivilegeMeaning {
  import opened Collections
  import opened Identifiers
  import opened PrivilegeLedger

  /** A stored `ALL` stands for every privilege. */
  lemma AllStandsForEvery(m: Matrix, role: Role, p: Privilege)
    ensures HasPrivilege(m, role, p) <==> role in m.grants && (p in m.grants[role] || All in m.grants[role])
    ensures HasGrantOption(m, role, p) <==> role in m.options && (p in m.options[role] || All in m.options[role])
  {
  }

  /** One cell is the same in both matrices. */
  predicate Same(m: Matrix, n: Matrix, r: Role, p: Privilege) {
    && (Holds(n.grants, r, p) <==> Holds(m.grants, r, p)) && (Holds(n.options, r, p) <==> Holds(m.options, r, p))
    && From(n.sources, r, p) == From(m.sources, r, p) && From(n.optionSources, r, p) == From(m.optionSources, r, p)
  }

  lemma SameCell(m: Matrix, n: Matrix, r: Role, p: Privilege)
    ensures Same(m, n, r, p) <==> At(n, r, p) == At(m, r, p)
  {
  }

  /** A grant gives what it names, with the option when asked and never without, records its
      grantor for both, and touches nothing else. */
  lemma GrantMeaning(m: Matrix, n: Matrix, role: Role, privileges: set<Privilege>, grantor: Option<Role>, withOption: bool, r: Role, p: Privilege)
    requires Effect(m, n, role, privileges, Give(grantor, withOption))
    ensures r != role || p !in privileges ==> Same(m, n, r, p)
    ensures r == role && p in privileges ==>
              && Holds(n.grants, r, p)
              && (Holds(n.options, r, p) <==> withOption || Holds(m.options, r, p))
              && (forall g :: g in From(n.sources, r, p) <==> g in From(m.sources, r, p) || grantor == Some(g))
              && (forall g :: g in From(n.optionSources, r, p) <==> g in From(m.optionSources, r, p) || (withOption && grantor == Some(g)))
  {
    SameCell(m, n, r, p);
    assert At(n, r, p) == if r == role && p in privileges then Changed(At(m, r, p), Give(grantor, withOption)) else At(m, r, p);
  }

  /** An untargeted revoke leaves nothing of what it names, and `ALL` names everything. */
  lemma RevokeMeaning(m: Matrix, n: Matrix, role: Role, privileges: set<Privilege>, r: Role, p: Privilege)
    requires Effect(m, n, role, Reached(privileges), Clear)
    ensures r == role && (All in privileges || p in privileges) ==>
              !Holds(n.grants, r, p) && !Holds(n.options, r, p) && From(n.sources, r, p) == {} && From(n.optionSources, r, p) == {}
    ensures !(r == role && (All in privileges || p in privileges)) ==> Same(m, n, r, p)
  {
    SameCell(m, n, r, p);
    assert At(n, r, p) == if r == role && p in Reached(privileges) then Changed(At(m, r, p), Clear) else At(m, r, p);
  }

  /** Revoking the option keeps the privilege and its sources. */
  lemma OptionRevokeMeaning(m: Matrix, n: Matrix, role: Role, privileges: set<Privilege>, r: Role, p: Privilege)
    requires Effect(m, n, role, Reached(privileges), ClearOption)
    ensures r == role && (All in privileges || p in privileges) ==>
              && !Holds(n.options, r, p) && From(n.optionSources, r, p) == {}
              && (Holds(n.grants, r, p) <==> Holds(m.grants, r, p)) && From(n.sources, r, p) == From(m.sources, r, p)
    ensures !(r == role && (All in privileges || p in privileges)) ==> Same(m, n, r, p)
  {
    SameCell(m, n, r, p);
    assert At(n, r, p) == if r == role && p in Reached(privileges) then Changed(At(m, r, p), ClearOption) else At(m, r, p);
  }

  /** Which cells of the role a targeted request names: `ALL` means what the role holds. */
  predicate Targets(m: Matrix, role: Role, privileges: set<Privilege>, r: Role, p: Privilege) {
    r == role && if All in privileges then Holds(m.grants, role, p) && p != All else p in privileges
  }

  /** A targeted revoke takes one source away. The privilege goes when no source is left; so does
      the option when its last recorded source goes, or when it had none and the privilege goes. */
  lemma TargetedRevokeMeaning(m: Matrix, n: Matrix, role: Role, privileges: set<Privilege>, g: Role, r: Role, p: Privilege)
    requires Effect(m, n, role, Expanded(m, role, privileges), RemoveSource(g))
    ensures !Targets(m, role, privileges, r, p) ==> Same(m, n, r, p)
    ensures Targets(m, role, privileges, r, p) ==>
              var left, optioned := From(m.sources, r, p) - {g}, From(m.optionSources, r, p) - {g};
              && From(n.sources, r, p) == left && From(n.optionSources, r, p) == optioned
              && (Holds(n.grants, r, p) <==> Holds(m.grants, r, p) && left != {})
              && (Holds(n.options, r, p) <==>
                    Holds(m.options, r, p) && (if From(m.optionSources, r, p) != {} then optioned != {} else left != {}))
  {
    SameCell(m, n, r, p);
    assert At(n, r, p) == if r == role && p in Expanded(m, role, privileges) then Changed(At(m, r, p), RemoveSource(g)) else At(m, r, p);
  }

  /** Forgetting provenance takes sources away and leaves what is held. */
  lemma ProvenanceMeaning(m: Matrix, n: Matrix, role: Role, privileges: set<Privilege>, grantor: Option<Role>, r: Role, p: Privilege)
    requires Effect(m, n, role, Reached(privileges), if grantor.Some? then RemoveProvenance(grantor.value) else ClearSources)
    ensures (Holds(n.grants, r, p) <==> Holds(m.grants, r, p)) && (Holds(n.options, r, p) <==> Holds(m.options, r, p))
    ensures r == role && (All in privileges || p in privileges) ==>
              && From(n.sources, r, p) == (if grantor.Some? then From(m.sources, r, p) - {grantor.value} else {})
              && From(n.optionSources, r, p) == (if grantor.Some? then From(m.optionSources, r, p) - {grantor.value} else {})
    ensures !(r == role && (All in privileges || p in privileges)) ==> Same(m, n, r, p)
  {
    SameCell(m, n, r, p);
    var change := if grantor.Some? then RemoveProvenance(grantor.value) else ClearSources;
    assert At(n, r, p) == if r == role && p in Reached(privileges) then Changed(At(m, r, p), change) else At(m, r, p);
  }

  /** A targeted revoke of the option keeps it only when another option source is recorded, keeps
      the privilege always, and then forgets the option's whole provenance. */
  lemma TargetedOptionRevokeMeaning(m: Matrix, mid: Matrix, n: Matrix, role: Role, privileges: set<Privilege>, g: Role, r: Role, p: Privilege)
    requires Effect(m, mid, role, Expanded(m, role, privileges), RemoveOptionSource(g))
    requires Effect(mid, n, role, Reached(privileges), ClearOptionSources)
    ensures (Holds(n.grants, r, p) <==> Holds(m.grants, r, p)) && From(n.sources, r, p) == From(m.sources, r, p)
    ensures Holds(n.options, r, p) <==>
            Holds(m.options, r, p) && (Targets(m, role, privileges, r, p) ==> From(m.optionSources, r, p) - {g} != {})
    ensures From(n.optionSources, r, p) ==
            if r == role && (All in privileges || p in privileges) then {} else From(m.optionSources, r, p)
  {
    var c, d, e := At(m, r, p), At(mid, r, p), At(n, r, p);
    OptionSourceTaken(m, mid, role, privileges, g, r, p);
    assert e == if r == role && p in Reached(privileges) then Changed(d, ClearOptionSources) else d;
  }

  lemma OptionSourceTaken(m: Matrix, mid: Matrix, role: Role, privileges: set<Privilege>, g: Role, r: Role, p: Privilege)
    requires Effect(m, mid, role, Expanded(m, role, privileges), RemoveOptionSource(g))
    ensures var c, d := At(m, r, p), At(mid, r, p); var named := Targets(m, role, privileges, r, p);
            && d.held == c.held && d.sources == c.sources
            && (d.option <==> c.option && (named ==> c.optionSources - {g} != {}))
            && d.optionSources == if named then c.optionSources - {g} else c.optionSources
  {
    assert Targets(m, role, privileges, r, p) <==> r == role && p in Expanded(m, role, privileges);
  }
}
