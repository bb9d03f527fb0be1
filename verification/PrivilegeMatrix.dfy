/** The mutable privilege matrix: grants, targeted revokes and the cascading revoke. */
module PrivilegeMatrices {
  import opened Collections
  import opened Identifiers
  import opened Reachability
  import opened PrivilegeLedger
  import opened PrivilegeCascade

  class PrivilegeMatrix {
    var grants: HeldMap
    var grantOptions: HeldMap
    var grantors: SourceMap
    var grantOptionGrantors: SourceMap

    ghost function Value(): Matrix
      reads this
    {
      Matrix(grants, grantOptions, grantors, grantOptionGrantors)
    }

    constructor ()
      ensures Sourced(Value()) && LedgerOf(Value()) == Ledger({}, {})
    {
      grants, grantOptions, grantors, grantOptionGrantors := map[], map[], map[], map[];
    }

    method Grant(role: Role, privileges: set<Privilege>)
      requires Coherent(Value())
      modifies this
      ensures Coherent(Value()) && Effect(old(Value()), Value(), role, privileges, Give(None, false))
    {
      grants := Extended(grants, role, privileges);
      EffectKeepsCoherent(old(Value()), Value(), role, privileges, Give(None, false));
    }

    method GrantWithOption(role: Role, privileges: set<Privilege>)
      requires Coherent(Value())
      modifies this
      ensures Coherent(Value()) && Effect(old(Value()), Value(), role, privileges, Give(None, true))
    {
      Grant(role, privileges);
      grantOptions := Extended(grantOptions, role, privileges);
      EffectKeepsCoherent(old(Value()), Value(), role, privileges, Give(None, true));
    }

    method GrantFrom(role: Role, privileges: set<Privilege>, grantor: Option<Role>, withOption: bool)
      requires Coherent(Value())
      modifies this
      ensures Coherent(Value()) && Effect(old(Value()), Value(), role, privileges, Give(grantor, withOption))
      ensures old(Sourced(Value())) && grantor.Some? && All !in privileges ==>
                Sourced(Value()) &&
                LedgerOf(Value()) == LedgerGrant(old(LedgerOf(Value())), role, privileges, grantor.value, withOption)
    {
      ghost var before := Value();
      if withOption {
        GrantWithOption(role, privileges);
      } else {
        Grant(role, privileges);
      }
      if grantor.Some? {
        var todo := privileges;
        while todo != {}
          invariant todo <= privileges
          invariant PartlyRecorded(before, Value(), role, privileges, todo, grantor.value, withOption)
        {
          var p :| p in todo;
          todo := todo - {p};
          ghost var was := Value();
          grantors := Put(grantors, role, p, From(grantors, role, p) + {grantor.value});
          if withOption {
            grantOptionGrantors := Put(grantOptionGrantors, role, p, From(grantOptionGrantors, role, p) + {grantor.value});
          }
          RecordingContinues(before, was, Value(), role, privileges, todo, p, grantor.value, withOption);
        }
      }
      EffectKeepsCoherent(before, Value(), role, privileges, Give(grantor, withOption));
      if Sourced(before) && grantor.Some? && All !in privileges {
        GrantRefinesLedger(before, Value(), role, privileges, grantor.value, withOption);
      }
    }

    method RevokeGrantOption(role: Role, privileges: set<Privilege>)
      requires NoEmptySources(grantors) && NoEmptySources(grantOptionGrantors)
      modifies this
      ensures Effect(old(Value()), Value(), role, Reached(privileges), ClearOption)
      ensures old(Coherent(Value())) ==> Coherent(Value())
      ensures old(Sourced(Value())) ==>
                Sourced(Value()) && LedgerOf(Value()) == LedgerRevokeOption(old(LedgerOf(Value())), role, privileges)
    {
      grantOptions := Taken(grantOptions, role, privileges);
      grantOptionGrantors := Dropped(grantOptionGrantors, role, privileges);
      if old(Coherent(Value())) {
        EffectKeepsCoherent(old(Value()), Value(), role, Reached(privileges), ClearOption);
      }
      if old(Sourced(Value())) {
        OptionRevokeRefinesLedger(old(Value()), Value(), role, privileges);
      }
    }

    /** Remove one grantor, or every known source, of the requested privileges. */
    method RemoveGrantProvenance(role: Role, privileges: set<Privilege>, grantor: Option<Role>)
      requires NoEmptySources(grantors) && NoEmptySources(grantOptionGrantors)
      modifies this
      ensures Effect(old(Value()), Value(), role, Reached(privileges),
                     if grantor.Some? then RemoveProvenance(grantor.value) else ClearSources)
      ensures old(Coherent(Value())) ==> Coherent(Value())
    {
      if grantor.Some? {
        grantors := Thinned(grantors, role, privileges, grantor.value);
        grantOptionGrantors := Thinned(grantOptionGrantors, role, privileges, grantor.value);
      } else {
        grantors := Dropped(grantors, role, privileges);
        grantOptionGrantors := Dropped(grantOptionGrantors, role, privileges);
      }
      ghost var change := if grantor.Some? then RemoveProvenance(grantor.value) else ClearSources;
      ProvenanceRemoved(old(Value()), Value(), role, privileges, grantor);
      if old(Coherent(Value())) {
        EffectKeepsCoherent(old(Value()), Value(), role, Reached(privileges), change);
      }
    }

    method Revoke(role: Role, privileges: set<Privilege>)
      requires Coherent(Value())
      modifies this
      ensures Coherent(Value()) && Effect(old(Value()), Value(), role, Reached(privileges), Clear)
      ensures old(Sourced(Value())) ==>
                Sourced(Value()) && LedgerOf(Value()) == LedgerRevoke(old(LedgerOf(Value())), role, privileges)
    {
      ghost var before := Value();
      grants := Taken(grants, role, privileges);
      ghost var taken := Value();
      RevokeGrantOption(role, privileges);
      ghost var unoptioned := Value();
      RemoveGrantProvenance(role, privileges, None);
      ClearedInTurn(before, taken, unoptioned, Value(), role, privileges);
      EffectKeepsCoherent(before, Value(), role, Reached(privileges), Clear);
      if Sourced(before) {
        RevokeRefinesLedger(before, Value(), role, privileges);
      }
    }

    function MayRegrant(role: Role, p: Privilege): (r: bool)
      reads this
      ensures r == HasGrantOption(Value(), role, p)
    {
      Holds(grantOptions, role, p) || (p != All && Holds(grantOptions, role, All))
    }

    function ExpandPrivileges(role: Role, privileges: set<Privilege>): (r: set<Privilege>)
      reads this
      ensures r == Expanded(Value(), role, privileges)
    {
      if All in privileges then (if role in grants then grants[role] - {All} else {}) else privileges
    }

    /** Remove one grantor from one cell; the privilege and option follow their last source. */
    method RevokeOne(role: Role, p: Privilege, grantor: Role)
      requires NoEmptySources(grantors) && NoEmptySources(grantOptionGrantors)
      modifies this
      ensures Effect(old(Value()), Value(), role, {p}, RemoveSource(grantor))
    {
      var sources := From(grantors, role, p) - {grantor};
      var optioned := From(grantOptionGrantors, role, p) - {grantor};
      var loses := optioned == {} && ((role, p) in grantOptionGrantors || sources == {});
      grantors := Put(grantors, role, p, sources);
      grantOptionGrantors := Put(grantOptionGrantors, role, p, optioned);
      if sources == {} {
        grants := Minus(grants, role, p);
      }
      if loses {
        grantOptions := Minus(grantOptions, role, p);
      }
      assert Value() == OneSourceLess(old(Value()), role, p, grantor);
      OneSourceRemoved(old(Value()), role, p, grantor);
    }

    method RevokeFrom(role: Role, privileges: set<Privilege>, grantor: Option<Role>)
      requires Coherent(Value())
      modifies this
      ensures Coherent(Value())
      ensures grantor.None? ==> Effect(old(Value()), Value(), role, Reached(privileges), Clear)
      ensures grantor.Some? ==>
                Effect(old(Value()), Value(), role, Expanded(old(Value()), role, privileges), RemoveSource(grantor.value))
      ensures old(Sourced(Value())) ==>
                Sourced(Value()) &&
                LedgerOf(Value()) == if grantor.None? then LedgerRevoke(old(LedgerOf(Value())), role, privileges)
                                     else LedgerRevokeFrom(old(LedgerOf(Value())), role, privileges, grantor.value)
    {
      if grantor.None? {
        Revoke(role, privileges);
        return;
      }
      ghost var before := Value();
      var expanded := ExpandPrivileges(role, privileges);
      var todo := expanded;
      while todo != {}
        invariant todo <= expanded
        invariant Effect(before, Value(), role, expanded - todo, RemoveSource(grantor.value))
      {
        var p :| p in todo;
        ghost var was := Value();
        RevokeOne(role, p, grantor.value);
        EffectContinues(before, was, Value(), role, expanded - todo, p, RemoveSource(grantor.value));
        todo := todo - {p};
      }
      assert expanded - todo == expanded;
      EffectKeepsCoherent(before, Value(), role, expanded, RemoveSource(grantor.value));
      if Sourced(before) {
        TargetedRevokeRefinesLedger(before, Value(), role, privileges, grantor.value);
      }
    }

    method RevokeGrantOptionFrom(role: Role, privileges: set<Privilege>, grantor: Option<Role>)
      requires Coherent(Value())
      modifies this
      ensures Coherent(Value())
      ensures grantor.None? ==> Effect(old(Value()), Value(), role, Reached(privileges), ClearOption)
      ensures grantor.Some? ==> exists mid ::
                && Effect(old(Value()), mid, role, Expanded(old(Value()), role, privileges), RemoveOptionSource(grantor.value))
                && Effect(mid, Value(), role, Reached(privileges), ClearOptionSources)
    {
      if grantor.None? {
        RevokeGrantOption(role, privileges);
        return;
      }
      ghost var before := Value();
      var expanded := ExpandPrivileges(role, privileges);
      var todo := expanded;
      while todo != {}
        invariant todo <= expanded
        invariant Effect(before, Value(), role, expanded - todo, RemoveOptionSource(grantor.value))
      {
        var p :| p in todo;
        ghost var was := Value();
        var optioned := From(grantOptionGrantors, role, p) - {grantor.value};
        grantOptionGrantors := Put(grantOptionGrantors, role, p, optioned);
        if optioned == {} {
          grantOptions := Minus(grantOptions, role, p);
        }
        OneOptionSourceRemoved(was, Value(), role, p, grantor.value);
        EffectContinues(before, was, Value(), role, expanded - todo, p, RemoveOptionSource(grantor.value));
        todo := todo - {p};
      }
      assert expanded - todo == expanded;
      ghost var mid := Value();
      EffectKeepsCoherent(before, mid, role, expanded, RemoveOptionSource(grantor.value));
      grantOptionGrantors := Dropped(grantOptionGrantors, role, privileges);
      EffectKeepsCoherent(mid, Value(), role, Reached(privileges), ClearOptionSources);
    }

    /** Revoke everything `lost` gave of `p`; the roles that received it, in some order. */
    method RevokeDownstream(lost: Role, p: Privilege) returns (downstream: seq<Role>)
      requires Coherent(Value()) && p != All
      modifies this
      ensures Stripped(old(Value()), Value(), lost, p, {})
      ensures forall r :: r in downstream <==> lost in At(old(Value()), r, p).sources
    {
      ghost var before := Value();
      var receivers := ReceiversOf(grantors, lost, p);
      var left := receivers;
      downstream := Enumerate(receivers);
      StripStarts(before, lost, p, receivers);
      while left != {}
        invariant left <= receivers && Coherent(Value())
        invariant Stripped(before, Value(), lost, p, left)
      {
        var r :| r in left;
        ghost var was := Value();
        RevokeSingle(r, p, lost);
        StripContinues(before, was, Value(), lost, p, left, r);
        left := left - {r};
      }
    }

    method RevokeSingle(role: Role, p: Privilege, grantor: Role)
      requires Coherent(Value()) && p != All
      modifies this
      ensures Coherent(Value()) && Effect(old(Value()), Value(), role, {p}, RemoveSource(grantor))
    {
      RevokeFrom(role, {p}, Some(grantor));
    }

    /** Revoke, then follow every role that thereby lost its last grant option. */
    method RevokeFromCascade(role: Role, privileges: set<Privilege>, grantor: Option<Role>, cascade: bool)
      returns (ghost trace: seq<CascadeState>)
      requires Coherent(Value())
      modifies this
      ensures Coherent(Value()) && (old(Sourced(Value())) ==> Sourced(Value()))
      ensures Shrunk(old(Value()), Value())
      ensures OnlyDownstream(old(Value()), Value(), role, Expanded(old(Value()), role, privileges), grantor)
      ensures |trace| > 0 && CascadeRun(trace) && trace[|trace| - 1].matrix == Value() && trace[0].visited == {}
      ensures Effect(old(Value()), trace[0].matrix, role, Expanded(old(Value()), role, privileges),
                     if grantor.Some? then RemoveSource(grantor.value) else Clear)
      ensures if cascade
              then (forall x, p :: (x, p) in trace[0].pending <==> x == role && p in Expanded(old(Value()), role, privileges))
                   && trace[|trace| - 1].pending == []
              else |trace| == 1
      ensures cascade ==> OrphansLostTwo(old(Value()), Value(), role, Expanded(old(Value()), role, privileges))
      ensures cascade && SingleSource(old(Value()), Expanded(old(Value()), role, privileges)) ==>
                NoOrphans(old(Value()), Value(), role, Expanded(old(Value()), role, privileges))
      ensures forall p :: p in Expanded(old(Value()), role, privileges) ==>
                At(Value(), role, p).sources <= if grantor.Some? then old(At(Value(), role, p).sources) - {grantor.value} else {}
    {
      ghost var before := Value();
      var expanded := ExpandPrivileges(role, privileges);
      RevokeFrom(role, expanded, grantor);
      FirstRevoke(before, Value(), role, expanded, grantor);
      if !cascade {
        trace := [CascadeState(Value(), [], {})];
        return;
      }
      trace := CascadeLoop(role, expanded, grantor, before);
    }

    /** The worklist of lost grantors; each pair is handled once. */
    method CascadeLoop(role: Role, expanded: set<Privilege>, grantor: Option<Role>, ghost before: Matrix)
      returns (ghost trace: seq<CascadeState>)
      requires Coherent(Value()) && (Sourced(before) ==> Sourced(Value()))
      requires Shrunk(before, Value()) && OnlyDownstream(before, Value(), role, expanded, grantor)
      requires forall r, p :: r != role ==> At(Value(), r, p) == At(before, r, p)
      requires All !in expanded
      modifies this
      ensures Coherent(Value()) && (Sourced(before) ==> Sourced(Value()))
      ensures Shrunk(before, Value()) && OnlyDownstream(before, Value(), role, expanded, grantor)
      ensures Shrunk(old(Value()), Value())
      ensures OrphansLostTwo(before, Value(), role, expanded)
      ensures SingleSource(before, expanded) ==> NoOrphans(before, Value(), role, expanded)
      ensures |trace| > 0 && CascadeRun(trace) && trace[0].matrix == old(Value()) && trace[0].visited == {}
      ensures trace[|trace| - 1].matrix == Value() && trace[|trace| - 1].pending == []
      ensures forall x, p :: (x, p) in trace[0].pending <==> x == role && p in expanded
    {
      var pending := PairsOf(role, expanded);
      var visited: set<Pair> := {};
      CascadeStarts(before, Value(), role, expanded, grantor, Elements(pending));
      trace := [CascadeState(Value(), pending, visited)];
      ghost var start := trace[0];
      while pending != []
        invariant CascadeInvariant(before, Value(), role, expanded, grantor, Elements(pending), visited)
        invariant |trace| > 0 && CascadeRun(trace) && trace[0] == start
        invariant trace[|trace| - 1] == CascadeState(Value(), pending, visited)
        decreases Involved(before, role, expanded) - visited, |pending|
      {
        ghost var last := CascadeState(Value(), pending, visited);
        PairsAreInvolved(before, Value(), role, expanded, grantor, pending, visited);
        pending, visited := CascadeOne(pending, visited, expanded);
        ghost var next := CascadeState(Value(), pending, visited);
        StepKeepsInvariant(before, role, expanded, grantor, last, next);
        RunExtends(trace, next);
        trace := trace + [next];
      }
      CascadeEnds(before, Value(), role, expanded, grantor, visited);
      RunShrinks(trace, |trace| - 1);
    }

    /** One iteration: pop a pair; a new one that may no longer give is stripped, and the
        receivers are queued. */
    method CascadeOne(pending: seq<Pair>, visited: set<Pair>, ghost expanded: set<Privilege>)
      returns (pending2: seq<Pair>, visited2: set<Pair>)
      requires Coherent(Value()) && All !in expanded && pending != [] && pending[|pending| - 1].1 in expanded
      modifies this
      ensures CascadeStep(old(Value()), pending, visited, Value(), pending2, visited2)
      ensures visited <= visited2 && pending[|pending| - 1] in visited2
      ensures visited2 == visited ==> |pending2| < |pending|
    {
      var (lost, p) := pending[|pending| - 1];
      pending2, visited2 := pending[..|pending| - 1], visited;
      if (lost, p) in visited {
        return;
      }
      visited2 := visited + {(lost, p)};
      if MayRegrant(lost, p) {
        return;
      }
      ghost var was := Value();
      var rest := pending2;
      var downstream := RevokeDownstream(lost, p);
      pending2 := rest + seq(|downstream|, i requires 0 <= i < |downstream| => (downstream[i], p));
      NextPending(was, pending2, rest, downstream, lost, p);
    }
  }

  /** The pairs a cascade starts from, in some order. */
  method PairsOf(role: Role, todo: set<Privilege>) returns (pairs: seq<Pair>)
    ensures forall x, p :: (x, p) in Elements(pairs) <==> x == role && p in todo
  {
    pairs := [];
    var left := todo;
    while left != {}
      invariant left <= todo
      invariant forall pair :: pair in pairs <==> pair.0 == role && pair.1 in todo - left
    {
      var p :| p in left;
      left := left - {p};
      pairs := pairs + [(role, p)];
    }
  }

  /** The grantees that name `grantor` as a source of `p`. */
  function ReceiversOf(m: SourceMap, grantor: Role, p: Privilege): (s: set<Role>)
    ensures forall r :: r in s <==> grantor in From(m, r, p)
  {
    var s := set k | k in m && k.1 == p && grantor in m[k] :: k.0;
    assert forall r :: grantor in From(m, r, p) ==> (r, p) in m;
    s
  }

  /** One grantor taken out of every requested key of a role. */
  function Thinned(m: SourceMap, role: Role, privileges: set<Privilege>, grantor: Role): (n: SourceMap)
    ensures forall x, q :: From(n, x, q) ==
              if x == role && Requested(privileges, q) then From(m, x, q) - {grantor} else From(m, x, q)
    ensures NoEmptySources(m) ==> NoEmptySources(n)
  {
    map k | k in m && !(k.0 == role && Requested(privileges, k.1) && m[k] <= {grantor}) ::
      if k.0 == role && Requested(privileges, k.1) then m[k] - {grantor} else m[k]
  }

  /** Taking the privilege, its option and its provenance in turn clears the cells. */
  lemma ClearedInTurn(m: Matrix, taken: Matrix, unoptioned: Matrix, n: Matrix, role: Role, privileges: set<Privilege>)
    requires taken == m.(grants := Taken(m.grants, role, privileges))
    requires Effect(taken, unoptioned, role, Reached(privileges), ClearOption)
    requires Effect(unoptioned, n, role, Reached(privileges), ClearSources)
    ensures Effect(m, n, role, Reached(privileges), Clear)
  {
    forall r, p ensures At(n, r, p) == if r == role && p in Reached(privileges) then Changed(At(m, r, p), Clear) else At(m, r, p) {
      var c := At(m, r, p);
      assert At(taken, r, p) == if r == role && p in Reached(privileges) then c.(held := false) else c;
      assert At(unoptioned, r, p) == if r == role && p in Reached(privileges) then Changed(At(taken, r, p), ClearOption) else At(taken, r, p);
    }
  }

  lemma ProvenanceRemoved(m: Matrix, n: Matrix, role: Role, privileges: set<Privilege>, grantor: Option<Role>)
    requires NoEmptySources(m.sources) && NoEmptySources(m.optionSources) && n.grants == m.grants && n.options == m.options
    requires n.sources == if grantor.Some? then Thinned(m.sources, role, privileges, grantor.value)
                          else Dropped(m.sources, role, privileges)
    requires n.optionSources == if grantor.Some? then Thinned(m.optionSources, role, privileges, grantor.value)
                                else Dropped(m.optionSources, role, privileges)
    ensures Effect(m, n, role, Reached(privileges), if grantor.Some? then RemoveProvenance(grantor.value) else ClearSources)
  {
  }

  /** The sources of `privileges - todo` are recorded, the rest only granted. */
  ghost predicate PartlyRecorded(m: Matrix, n: Matrix, role: Role, privileges: set<Privilege>, todo: set<Privilege>,
                                 grantor: Role, withOption: bool) {
    && NoEmptySources(n.sources) && NoEmptySources(n.optionSources)
    && forall r, p :: At(n, r, p) ==
         if r == role && p in privileges
         then Changed(At(m, r, p), Give(if p in todo then None else Some(grantor), withOption)) else At(m, r, p)
  }

  lemma RecordedAt(was: Matrix, now: Matrix, role: Role, p: Privilege, grantor: Role, withOption: bool, r: Role, q: Privilege)
    requires now.grants == was.grants && now.options == was.options
    requires now.sources == Put(was.sources, role, p, From(was.sources, role, p) + {grantor})
    requires now.optionSources == if withOption then Put(was.optionSources, role, p, From(was.optionSources, role, p) + {grantor})
                                  else was.optionSources
    ensures var c := At(was, r, q);
            At(now, r, q) == if r == role && q == p
                             then c.(sources := c.sources + {grantor},
                                     optionSources := c.optionSources + (if withOption then {grantor} else {}))
                             else c
  {
  }

  lemma RecordedCell(c: Cell, grantor: Role, withOption: bool)
    ensures var d := Changed(c, Give(None, withOption));
            Changed(c, Give(Some(grantor), withOption)) ==
            d.(sources := d.sources + {grantor}, optionSources := d.optionSources + (if withOption then {grantor} else {}))
  {
  }

  lemma RecordingContinues(m: Matrix, was: Matrix, now: Matrix, role: Role, privileges: set<Privilege>,
                           todo: set<Privilege>, p: Privilege, grantor: Role, withOption: bool)
    requires PartlyRecorded(m, was, role, privileges, todo + {p}, grantor, withOption) && p !in todo && p in privileges
    requires now.grants == was.grants && now.options == was.options
    requires now.sources == Put(was.sources, role, p, From(was.sources, role, p) + {grantor})
    requires now.optionSources == if withOption then Put(was.optionSources, role, p, From(was.optionSources, role, p) + {grantor})
                                  else was.optionSources
    ensures PartlyRecorded(m, now, role, privileges, todo, grantor, withOption)
  {
    forall r, q ensures At(now, r, q) ==
        if r == role && q in privileges
        then Changed(At(m, r, q), Give(if q in todo then None else Some(grantor), withOption)) else At(m, r, q)
    {
      assert At(was, r, q) ==
        if r == role && q in privileges
        then Changed(At(m, r, q), Give(if q in todo + {p} then None else Some(grantor), withOption)) else At(m, r, q);
      RecordedAt(was, now, role, p, grantor, withOption, r, q);
      RecordedCell(At(m, r, q), grantor, withOption);
    }
  }

  /** The matrix with one grantor taken out of one cell. */
  function OneSourceLess(m: Matrix, role: Role, p: Privilege, grantor: Role): Matrix {
    var sources := From(m.sources, role, p) - {grantor};
    var optioned := From(m.optionSources, role, p) - {grantor};
    var loses := optioned == {} && ((role, p) in m.optionSources || sources == {});
    Matrix(if sources == {} then Minus(m.grants, role, p) else m.grants,
           if loses then Minus(m.options, role, p) else m.options,
           Put(m.sources, role, p, sources),
           Put(m.optionSources, role, p, optioned))
  }

  lemma OneSourceLessAt(m: Matrix, role: Role, p: Privilege, grantor: Role, r: Role, q: Privilege)
    requires NoEmptySources(m.optionSources)
    ensures At(OneSourceLess(m, role, p, grantor), r, q) ==
            if r == role && q == p then Changed(At(m, r, q), RemoveSource(grantor)) else At(m, r, q)
  {
  }

  lemma OneSourceRemoved(m: Matrix, role: Role, p: Privilege, grantor: Role)
    requires NoEmptySources(m.sources) && NoEmptySources(m.optionSources)
    ensures Effect(m, OneSourceLess(m, role, p, grantor), role, {p}, RemoveSource(grantor))
  {
    var n := OneSourceLess(m, role, p, grantor);
    forall r, q ensures At(n, r, q) == if r == role && q in {p} then Changed(At(m, r, q), RemoveSource(grantor)) else At(m, r, q) {
      OneSourceLessAt(m, role, p, grantor, r, q);
    }
  }

  lemma OneOptionSourceRemoved(m: Matrix, n: Matrix, role: Role, p: Privilege, grantor: Role)
    requires NoEmptySources(m.sources) && NoEmptySources(m.optionSources)
    requires n.sources == m.sources && n.grants == m.grants
    requires n.optionSources == Put(m.optionSources, role, p, From(m.optionSources, role, p) - {grantor})
    requires n.options == if From(m.optionSources, role, p) - {grantor} == {} then Minus(m.options, role, p) else m.options
    ensures Effect(m, n, role, {p}, RemoveOptionSource(grantor))
  {
    forall r, q ensures At(n, r, q) == if r == role && q in {p} then Changed(At(m, r, q), RemoveOptionSource(grantor)) else At(m, r, q) {
      if r != role || q != p {
        assert At(n, r, q) == At(m, r, q);
      }
    }
  }

  lemma NextPending(was: Matrix, next: seq<Pair>, rest: seq<Pair>, downstream: seq<Role>, lost: Role, p: Privilege)
    requires next == rest + seq(|downstream|, i requires 0 <= i < |downstream| => (downstream[i], p))
    requires forall r :: r in downstream <==> lost in At(was, r, p).sources
    ensures |next| >= |rest| && next[..|rest|] == rest
    ensures forall x, q :: (x, q) in next[|rest|..] <==> q == p && lost in At(was, x, p).sources
  {
    var pushed := seq(|downstream|, i requires 0 <= i < |downstream| => (downstream[i], p));
    forall x, q ensures (x, q) in pushed <==> q == p && x in downstream {
      if q == p && x in downstream {
        var i :| 0 <= i < |downstream| && downstream[i] == x;
        assert pushed[i] == (x, q);
      }
    }
    assert next[|rest|..] == pushed;
  }

  lemma EffectContinues(m: Matrix, was: Matrix, now: Matrix, role: Role, done: set<Privilege>, p: Privilege, change: Change)
    requires Effect(m, was, role, done, change) && Effect(was, now, role, {p}, change) && p !in done
    ensures Effect(m, now, role, done + {p}, change)
  {
    forall r, q ensures At(now, r, q) == if r == role && q in done + {p} then Changed(At(m, r, q), change) else At(m, r, q) {
      assert At(was, r, q) == if r == role && q in done then Changed(At(m, r, q), change) else At(m, r, q);
    }
  }
}
