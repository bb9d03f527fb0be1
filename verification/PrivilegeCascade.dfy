/** What the cascading revoke guarantees, and the invariant of its worklist. */
module PrivilegeCascade {
  import opened Collections
  import opened Identifiers
  import opened Reachability
  import opened PrivilegeLedger

  /** Grantor-to-grantee links recorded for one privilege. */
  ghost function Delegations(m: Matrix, p: Privilege): (links: set<(Role, Role)>)
    ensures forall g, r :: (g, r) in links <==> g in At(m, r, p).sources
  {
    var links := set e | e in LedgerOf(m).grants && e.privilege == p :: (e.grantor, e.grantee);
    assert forall g, r :: g in At(m, r, p).sources ==> Entry(r, p, g) in LedgerOf(m).grants;
    links
  }

  /** Nothing was gained. */
  ghost predicate Shrunk(m: Matrix, n: Matrix) {
    forall r, p :: Below(At(n, r, p), At(m, r, p))
  }

  predicate Below(d: Cell, c: Cell) {
    (d.held ==> c.held) && (d.option ==> c.option) && d.sources <= c.sources && d.optionSources <= c.optionSources
  }

  /** Only requested privileges of roles downstream of `role` changed, and only sources
      that are `role`'s own revoked grantor or downstream of `role` were removed. */
  ghost predicate OnlyDownstream(m: Matrix, n: Matrix, role: Role, todo: set<Privilege>, grantor: Option<Role>) {
    && (forall r, p :: At(n, r, p) != At(m, r, p) ==> p in todo && Reaches(Delegations(m, p), role, r))
    && (forall r, p, s :: s in At(m, r, p).sources && s !in At(n, r, p).sources ==>
          || (r == role && (grantor.None? || s == grantor.value))
          || Reaches(Delegations(m, p), role, s))
  }

  /** A source of `x` that is downstream of `role` and gone in `n`. */
  ghost predicate Lost(m: Matrix, n: Matrix, role: Role, x: Role, p: Privilege, s: Role) {
    s in At(m, x, p).sources && s !in At(n, x, p).sources && Reaches(Delegations(m, p), role, s)
  }

  ghost predicate LostTwo(m: Matrix, n: Matrix, role: Role, x: Role, p: Privilege) {
    exists s, t :: s != t && Lost(m, n, role, x, p, s) && Lost(m, n, role, x, p, t)
  }

  /** Nobody received one of these privileges from two grantors. */
  ghost predicate SingleSource(m: Matrix, todo: set<Privilege>) {
    forall r, p, s, t :: p in todo && s in At(m, r, p).sources && t in At(m, r, p).sources ==> s == t
  }

  /** `x` may no longer give `p`, though it could before or is the revoked role, and yet
      is the source of what `y` still holds. */
  ghost predicate Orphan(m: Matrix, n: Matrix, role: Role, x: Role, p: Privilege, y: Role) {
    (At(m, x, p).option || x == role) && !HasGrantOption(n, x, p) && x in At(n, y, p).sources
  }

  ghost predicate NoOrphans(m: Matrix, n: Matrix, role: Role, todo: set<Privilege>) {
    forall x, p, y :: p in todo ==> !Orphan(m, n, role, x, p, y)
  }

  /** Only a role other than the revoked one, that lost two sources downstream of it, leaves
      orphans behind. */
  ghost predicate OrphansLostTwo(m: Matrix, n: Matrix, role: Role, todo: set<Privilege>) {
    forall x, p, y :: p in todo && Orphan(m, n, role, x, p, y) ==> x != role && LostTwo(m, n, role, x, p)
  }

  /** `lost` disappears as a source of `p`; cells it was no source of stay. */
  ghost predicate Stripped(m: Matrix, n: Matrix, lost: Role, p: Privilege, left: set<Role>) {
    && (forall r, q :: At(n, r, q) ==
                       if q == p && lost in At(m, r, q).sources && r !in left
                       then Changed(At(m, r, q), RemoveSource(lost)) else At(m, r, q))
    && NoEmptySources(n.sources) && NoEmptySources(n.optionSources)
  }

  lemma StripKeeps(m: Matrix, n: Matrix, lost: Role, p: Privilege, left: set<Role>)
    requires Coherent(m) && Stripped(m, n, lost, p, left)
    ensures Coherent(n) && Shrunk(m, n)
    ensures Sourced(m) ==> Sourced(n)
  {
    forall r, q ensures CellCoherent(At(n, r, q)) && Below(At(n, r, q), At(m, r, q)) {
      assert CellCoherent(At(m, r, q));
    }
    if Sourced(m) {
      forall r, q ensures CellSourced(At(n, r, q)) && (q == All ==> !At(n, r, q).held) {
        assert CellSourced(At(m, r, q)) && CellCoherent(At(m, r, q));
      }
    }
  }

  lemma RevokeShrinks(m: Matrix, n: Matrix, role: Role, todo: set<Privilege>, change: Change)
    requires Effect(m, n, role, todo, change) && (change.RemoveSource? || change.Clear?)
    ensures Shrunk(m, n)
  {
    forall r, p ensures Below(At(n, r, p), At(m, r, p)) {
    }
  }

  lemma ShrunkTransitive(a: Matrix, b: Matrix, c: Matrix)
    requires Shrunk(a, b) && Shrunk(b, c)
    ensures Shrunk(a, c)
  {
    forall r, p ensures Below(At(c, r, p), At(a, r, p)) {
      assert Below(At(b, r, p), At(a, r, p)) && Below(At(c, r, p), At(b, r, p));
    }
  }

  lemma StripStarts(m: Matrix, lost: Role, p: Privilege, receivers: set<Role>)
    requires Coherent(m) && forall r :: r in receivers <==> lost in At(m, r, p).sources
    ensures Stripped(m, m, lost, p, receivers)
  {
  }

  lemma StripContinues(m: Matrix, was: Matrix, now: Matrix, lost: Role, p: Privilege, left: set<Role>, r: Role)
    requires Stripped(m, was, lost, p, left) && Effect(was, now, r, {p}, RemoveSource(lost))
    requires r in left && lost in At(m, r, p).sources
    ensures Stripped(m, now, lost, p, left - {r})
  {
    forall x, q ensures At(now, x, q) ==
        if q == p && lost in At(m, x, q).sources && x !in left - {r}
        then Changed(At(m, x, q), RemoveSource(lost)) else At(m, x, q)
    {
      assert At(was, x, q) == if q == p && lost in At(m, x, q).sources && x !in left
                              then Changed(At(m, x, q), RemoveSource(lost)) else At(m, x, q);
    }
  }

  // ------------------------------------------------------------- the worklist

  type Pair = (Role, Privilege)

  /** Every pair the worklist can ever hold. */
  function Involved(m: Matrix, role: Role, todo: set<Privilege>): set<Pair> {
    (set k | k in m.sources && k.1 in todo) + set p | p in todo :: (role, p)
  }

  /** One iteration of the cascade loop, for any order of the receivers. */
  ghost predicate CascadeStep(n: Matrix, pending: seq<Pair>, visited: set<Pair>,
                              n': Matrix, pending': seq<Pair>, visited': set<Pair>) {
    pending != [] &&
    var rest := pending[..|pending| - 1];
    var (lost, p) := pending[|pending| - 1];
    if (lost, p) in visited then n' == n && pending' == rest && visited' == visited
    else if HasGrantOption(n, lost, p) then n' == n && pending' == rest && visited' == visited + {(lost, p)}
    else
      && Stripped(n, n', lost, p, {})
      && visited' == visited + {(lost, p)}
      && |pending'| >= |rest| && pending'[..|rest|] == rest
      && forall r, q :: (r, q) in pending'[|rest|..] <==> q == p && lost in At(n, r, p).sources
  }

  datatype CascadeState = CascadeState(matrix: Matrix, pending: seq<Pair>, visited: set<Pair>)

  /** A run of the loop, iteration by iteration. */
  ghost predicate CascadeRun(trace: seq<CascadeState>) {
    forall i :: 0 < i < |trace| ==> StepsTo(trace[i - 1], trace[i])
  }

  ghost predicate StepsTo(a: CascadeState, b: CascadeState) {
    CascadeStep(a.matrix, a.pending, a.visited, b.matrix, b.pending, b.visited)
  }

  lemma RunExtends(trace: seq<CascadeState>, s: CascadeState)
    requires |trace| > 0 && CascadeRun(trace) && StepsTo(trace[|trace| - 1], s)
    ensures CascadeRun(trace + [s])
  {
  }

  /** Progress towards completeness: a queued role lost a source downstream, nothing is
      queued while the revoked role may still give, a finished role that may not give and yet
      is a source lost two, and no loss was forgotten. */
  ghost predicate Completing(m: Matrix, n: Matrix, role: Role, todo: set<Privilege>, pending: set<Pair>, visited: set<Pair>) {
    && (forall x, p :: (x, p) in pending + visited && x != role ==>
          (exists s :: Lost(m, n, role, x, p, s)) && !At(n, role, p).option)
    && (forall x, p, y :: (x, p) in visited && !HasGrantOption(n, x, p) && x in At(n, y, p).sources ==>
          x != role && LostTwo(m, n, role, x, p))
    && (forall x, p :: p in todo && (At(m, x, p).option || x == role) && !At(n, x, p).option ==> (x, p) in pending + visited)
  }

  ghost predicate CascadeInvariant(m: Matrix, n: Matrix, role: Role, todo: set<Privilege>, grantor: Option<Role>,
                                   pending: set<Pair>, visited: set<Pair>) {
    && Coherent(n) && Shrunk(m, n) && (Sourced(m) ==> Sourced(n))
    && OnlyDownstream(m, n, role, todo, grantor)
    && (forall x, p :: (x, p) in pending + visited ==> p in todo && Reaches(Delegations(m, p), role, x))
    && Completing(m, n, role, todo, pending, visited)
  }

  /** The revoke that starts a cascade. */
  lemma FirstRevoke(m: Matrix, n: Matrix, role: Role, todo: set<Privilege>, grantor: Option<Role>)
    requires Effect(m, n, role, todo, if grantor.Some? then RemoveSource(grantor.value) else Clear)
    ensures Shrunk(m, n) && OnlyDownstream(m, n, role, todo, grantor)
  {
    RevokeShrinks(m, n, role, todo, if grantor.Some? then RemoveSource(grantor.value) else Clear);
    forall p ensures Reaches(Delegations(m, p), role, role) {
      ReachesSelf(Delegations(m, p), role);
    }
  }

  lemma CascadeStarts(m: Matrix, n: Matrix, role: Role, todo: set<Privilege>, grantor: Option<Role>, pending: set<Pair>)
    requires Coherent(n) && (Sourced(m) ==> Sourced(n)) && Shrunk(m, n) && OnlyDownstream(m, n, role, todo, grantor)
    requires forall r, p :: r != role ==> At(n, r, p) == At(m, r, p)
    requires forall x, p :: (x, p) in pending <==> x == role && p in todo
    ensures CascadeInvariant(m, n, role, todo, grantor, pending, {})
  {
    forall p ensures Reaches(Delegations(m, p), role, role) {
      ReachesSelf(Delegations(m, p), role);
    }
  }

  lemma PairAlreadyVisited(m: Matrix, n: Matrix, role: Role, todo: set<Privilege>, grantor: Option<Role>,
                           pending: set<Pair>, visited: set<Pair>, pair: Pair)
    requires CascadeInvariant(m, n, role, todo, grantor, pending + {pair}, visited) && pair in visited
    ensures CascadeInvariant(m, n, role, todo, grantor, pending, visited)
  {
    assert (pending + {pair}) + visited == pending + visited;
  }

  lemma PairKeepsOption(m: Matrix, n: Matrix, role: Role, todo: set<Privilege>, grantor: Option<Role>,
                        pending: set<Pair>, visited: set<Pair>, lost: Role, p: Privilege)
    requires CascadeInvariant(m, n, role, todo, grantor, pending + {(lost, p)}, visited)
    requires HasGrantOption(n, lost, p)
    ensures CascadeInvariant(m, n, role, todo, grantor, pending, visited + {(lost, p)})
  {
    assert (pending + {(lost, p)}) + visited == pending + (visited + {(lost, p)});
    PassedOverIsCompleting(m, n, role, todo, pending, visited, lost, p);
  }

  lemma PassedOverIsCompleting(m: Matrix, n: Matrix, role: Role, todo: set<Privilege>, pending: set<Pair>, visited: set<Pair>,
                               lost: Role, p: Privilege)
    requires Completing(m, n, role, todo, pending + {(lost, p)}, visited) && HasGrantOption(n, lost, p)
    ensures Completing(m, n, role, todo, pending, visited + {(lost, p)})
  {
    assert (pending + {(lost, p)}) + visited == pending + (visited + {(lost, p)});
    assert forall x, q :: (x, q) in visited + {(lost, p)} && !HasGrantOption(n, x, q) ==> (x, q) in visited;
  }

  lemma ReceiversAreDownstream(m: Matrix, was: Matrix, role: Role, lost: Role, p: Privilege)
    requires Shrunk(m, was) && Reaches(Delegations(m, p), role, lost)
    ensures forall r :: lost in At(was, r, p).sources ==> Reaches(Delegations(m, p), role, r)
  {
    var links := Delegations(m, p);
    forall r | lost in At(was, r, p).sources ensures Reaches(links, role, r) {
      assert Below(At(was, r, p), At(m, r, p));
      assert (lost, r) in links;
      ReachesSelf(links, r);
      ReachesAfterLink(links, lost, r, r);
      ReachesCompose(links, role, lost, r);
    }
  }

  /** A strip changes cells of its privilege that had the lost source, and takes only that source. */
  lemma StripTouches(was: Matrix, now: Matrix, lost: Role, p: Privilege, r: Role, q: Privilege)
    requires Stripped(was, now, lost, p, {})
    ensures At(now, r, q) != At(was, r, q) ==> q == p && lost in At(was, r, q).sources
    ensures forall s :: s in At(was, r, q).sources && s !in At(now, r, q).sources ==> q == p && s == lost
  {
  }

  lemma ProcessedStaysDownstream(m: Matrix, was: Matrix, now: Matrix, role: Role, todo: set<Privilege>,
                                 grantor: Option<Role>, lost: Role, p: Privilege)
    requires Shrunk(m, was) && OnlyDownstream(m, was, role, todo, grantor) && Stripped(was, now, lost, p, {})
    requires p in todo && Reaches(Delegations(m, p), role, lost)
    ensures OnlyDownstream(m, now, role, todo, grantor)
    ensures forall r :: lost in At(was, r, p).sources ==> Reaches(Delegations(m, p), role, r)
  {
    ReceiversAreDownstream(m, was, role, lost, p);
    forall r, q | At(now, r, q) != At(m, r, q) ensures q in todo && Reaches(Delegations(m, q), role, r) {
      StripTouches(was, now, lost, p, r, q);
    }
    forall r, q, s | s in At(m, r, q).sources && s !in At(now, r, q).sources
      ensures (r == role && (grantor.None? || s == grantor.value)) || Reaches(Delegations(m, q), role, s)
    {
      StripTouches(was, now, lost, p, r, q);
    }
  }

  /** Nothing lost comes back. */
  lemma LostStaysLost(m: Matrix, was: Matrix, now: Matrix, role: Role, x: Role, p: Privilege)
    requires Shrunk(was, now)
    ensures forall s :: Lost(m, was, role, x, p, s) ==> Lost(m, now, role, x, p, s)
    ensures LostTwo(m, was, role, x, p) ==> LostTwo(m, now, role, x, p)
  {
    assert Below(At(now, x, p), At(was, x, p));
  }

  /** A receiver of a stripped grantor lost that source. */
  lemma ReceiverLosesSource(m: Matrix, was: Matrix, now: Matrix, role: Role, lost: Role, p: Privilege, x: Role)
    requires Shrunk(m, was) && Stripped(was, now, lost, p, {}) && Reaches(Delegations(m, p), role, lost)
    requires lost in At(was, x, p).sources
    ensures Lost(m, now, role, x, p, lost)
  {
    assert Below(At(was, x, p), At(m, x, p));
    assert At(now, x, p) == Changed(At(was, x, p), RemoveSource(lost));
  }

  lemma QueuedHaveLostSource(m: Matrix, was: Matrix, now: Matrix, role: Role, todo: set<Privilege>, pending: set<Pair>,
                             visited: set<Pair>, lost: Role, p: Privilege, next: set<Pair>, x: Role, q: Privilege)
    requires Shrunk(m, was) && Shrunk(was, now) && Stripped(was, now, lost, p, {}) && Reaches(Delegations(m, p), role, lost)
    requires Completing(m, was, role, todo, pending + {(lost, p)}, visited)
    requires !At(was, lost, p).option
    requires forall x, q :: (x, q) in next <==> (x, q) in pending || (q == p && lost in At(was, x, p).sources)
    requires (x, q) in next + (visited + {(lost, p)}) && x != role
    ensures (exists s :: Lost(m, now, role, x, q, s)) && !At(now, role, q).option
  {
    assert Below(At(now, role, q), At(was, role, q));
    assert (lost, p) in (pending + {(lost, p)}) + visited;
    LostStaysLost(m, was, now, role, x, q);
    if (x, q) !in (pending + {(lost, p)}) + visited {
      ReceiverLosesSource(m, was, now, role, lost, p, x);
    } else {
      var s :| Lost(m, was, role, x, q, s);
    }
  }

  /** A passed-over role that loses its option in this step loses its second source. */
  lemma SecondLoss(m: Matrix, was: Matrix, now: Matrix, role: Role, lost: Role, p: Privilege, x: Role, s: Role)
    requires Shrunk(m, was) && Shrunk(was, now) && Stripped(was, now, lost, p, {}) && Reaches(Delegations(m, p), role, lost)
    requires Lost(m, was, role, x, p, s) && At(now, x, p) != At(was, x, p)
    ensures LostTwo(m, now, role, x, p)
  {
    StripTouches(was, now, lost, p, x, p);
    ReceiverLosesSource(m, was, now, role, lost, p, x);
    LostStaysLost(m, was, now, role, x, p);
    assert s != lost;
  }

  lemma FinishedSourcesLostTwo(m: Matrix, was: Matrix, now: Matrix, role: Role, todo: set<Privilege>, pending: set<Pair>,
                               visited: set<Pair>, lost: Role, p: Privilege, x: Role, q: Privilege, y: Role)
    requires Shrunk(m, was) && Shrunk(was, now) && Stripped(was, now, lost, p, {}) && Reaches(Delegations(m, p), role, lost)
    requires Completing(m, was, role, todo, pending + {(lost, p)}, visited)
    requires (x, q) in visited && (x, q) != (lost, p) && !At(was, lost, p).option && p != All
    requires !HasGrantOption(now, x, q) && x in At(now, y, q).sources
    ensures x != role && LostTwo(m, now, role, x, q)
  {
    assert Below(At(now, y, q), At(was, y, q));
    assert (lost, p) in (pending + {(lost, p)}) + visited && (x, q) in (pending + {(lost, p)}) + visited;
    if HasGrantOption(was, x, q) {
      OptionGoesWithSource(was, now, lost, p, x, q);
      var s :| Lost(m, was, role, x, q, s);
      SecondLoss(m, was, now, role, lost, p, x, s);
    } else {
      LostStaysLost(m, was, now, role, x, q);
    }
  }

  lemma OptionGoesWithSource(was: Matrix, now: Matrix, lost: Role, p: Privilege, x: Role, q: Privilege)
    requires Stripped(was, now, lost, p, {}) && p != All && HasGrantOption(was, x, q) && !HasGrantOption(now, x, q)
    ensures q == p && At(was, x, p).option && At(now, x, p) != At(was, x, p)
  {
    StripTouches(was, now, lost, p, x, q);
    assert At(now, x, All) == At(was, x, All);
  }

  lemma NoLossForgotten(m: Matrix, was: Matrix, now: Matrix, role: Role, todo: set<Privilege>, pending: set<Pair>,
                        visited: set<Pair>, lost: Role, p: Privilege, next: set<Pair>, x: Role, q: Privilege)
    requires Stripped(was, now, lost, p, {})
    requires Completing(m, was, role, todo, pending + {(lost, p)}, visited)
    requires forall x, q :: (x, q) in next <==> (x, q) in pending || (q == p && lost in At(was, x, p).sources)
    requires q in todo && (At(m, x, q).option || x == role) && !At(now, x, q).option
    ensures (x, q) in next + (visited + {(lost, p)})
  {
    if At(was, x, q).option {
      assert At(now, x, q) != At(was, x, q);
    } else {
      assert (x, q) in (pending + {(lost, p)}) + visited;
    }
  }

  lemma ProcessedIsCompleting(m: Matrix, was: Matrix, now: Matrix, role: Role, todo: set<Privilege>,
                              pending: set<Pair>, visited: set<Pair>, lost: Role, p: Privilege, next: set<Pair>)
    requires p != All && Shrunk(m, was) && Shrunk(was, now) && Stripped(was, now, lost, p, {})
    requires Reaches(Delegations(m, p), role, lost)
    requires Completing(m, was, role, todo, pending + {(lost, p)}, visited)
    requires !At(was, lost, p).option
    requires forall x, q :: (x, q) in next <==> (x, q) in pending || (q == p && lost in At(was, x, p).sources)
    ensures Completing(m, now, role, todo, next, visited + {(lost, p)})
  {
    forall x, q | (x, q) in next + (visited + {(lost, p)}) && x != role
      ensures (exists s :: Lost(m, now, role, x, q, s)) && !At(now, role, q).option
    {
      QueuedHaveLostSource(m, was, now, role, todo, pending, visited, lost, p, next, x, q);
    }
    forall x, q, y | (x, q) in visited + {(lost, p)} && !HasGrantOption(now, x, q) && x in At(now, y, q).sources
      ensures x != role && LostTwo(m, now, role, x, q)
    {
      StrippedGivesNothing(was, now, lost, p, y);
      FinishedSourcesLostTwo(m, was, now, role, todo, pending, visited, lost, p, x, q, y);
    }
    forall x, q | q in todo && (At(m, x, q).option || x == role) && !At(now, x, q).option
      ensures (x, q) in next + (visited + {(lost, p)})
    {
      NoLossForgotten(m, was, now, role, todo, pending, visited, lost, p, next, x, q);
    }
  }

  lemma StrippedGivesNothing(was: Matrix, now: Matrix, lost: Role, p: Privilege, y: Role)
    requires Stripped(was, now, lost, p, {})
    ensures lost !in At(now, y, p).sources
  {
  }

  lemma PairProcessed(m: Matrix, was: Matrix, now: Matrix, role: Role, todo: set<Privilege>, grantor: Option<Role>,
                      pending: set<Pair>, visited: set<Pair>, lost: Role, p: Privilege, next: set<Pair>)
    requires CascadeInvariant(m, was, role, todo, grantor, pending + {(lost, p)}, visited)
    requires Stripped(was, now, lost, p, {}) && !HasGrantOption(was, lost, p) && p != All
    requires forall x, q :: (x, q) in next <==> (x, q) in pending || (q == p && lost in At(was, x, p).sources)
    ensures CascadeInvariant(m, now, role, todo, grantor, next, visited + {(lost, p)}) && Shrunk(was, now)
  {
    assert (lost, p) in (pending + {(lost, p)}) + visited;
    StripKeeps(was, now, lost, p, {});
    ShrunkTransitive(m, was, now);
    ProcessedStaysDownstream(m, was, now, role, todo, grantor, lost, p);
    forall x, q | (x, q) in next + (visited + {(lost, p)}) ensures q in todo && Reaches(Delegations(m, q), role, x) {
      assert (x, q) in (pending + {(lost, p)}) + visited || (q == p && lost in At(was, x, p).sources);
    }
    ProcessedIsCompleting(m, was, now, role, todo, pending, visited, lost, p, next);
  }

  lemma CascadeEnds(m: Matrix, n: Matrix, role: Role, todo: set<Privilege>, grantor: Option<Role>, visited: set<Pair>)
    requires CascadeInvariant(m, n, role, todo, grantor, Elements([]), visited)
    ensures OrphansLostTwo(m, n, role, todo)
    ensures SingleSource(m, todo) ==> NoOrphans(m, n, role, todo)
  {
    assert Elements<Pair>([]) + visited == visited;
    if SingleSource(m, todo) {
      forall x, p, y | p in todo ensures !Orphan(m, n, role, x, p, y) {
        assert !LostTwo(m, n, role, x, p);
      }
    }
  }

  // ------------------------------------------------------------- whole runs

  lemma QueueAfterStrip(rest: seq<Pair>, next: seq<Pair>, m: Matrix, lost: Role, p: Privilege)
    requires |next| >= |rest| && next[..|rest|] == rest
    requires forall r, q :: (r, q) in next[|rest|..] <==> q == p && lost in At(m, r, p).sources
    ensures forall x, q :: (x, q) in Elements(next) <==> (x, q) in Elements(rest) || (q == p && lost in At(m, x, p).sources)
  {
    assert next == rest + next[|rest|..];
  }

  /** Every iteration keeps the worklist invariant. */
  lemma StepKeepsInvariant(m: Matrix, role: Role, todo: set<Privilege>, grantor: Option<Role>, a: CascadeState, b: CascadeState)
    requires CascadeInvariant(m, a.matrix, role, todo, grantor, Elements(a.pending), a.visited)
    requires StepsTo(a, b) && All !in todo
    ensures CascadeInvariant(m, b.matrix, role, todo, grantor, Elements(b.pending), b.visited)
  {
    var n := |a.pending| - 1;
    var rest := a.pending[..n];
    var (lost, p) := a.pending[n];
    PopElements(a.pending);
    assert (lost, p) in (Elements(rest) + {(lost, p)}) + a.visited;
    if (lost, p) in a.visited {
      PairAlreadyVisited(m, a.matrix, role, todo, grantor, Elements(rest), a.visited, (lost, p));
    } else if HasGrantOption(a.matrix, lost, p) {
      PairKeepsOption(m, a.matrix, role, todo, grantor, Elements(rest), a.visited, lost, p);
    } else {
      QueueAfterStrip(rest, b.pending, a.matrix, lost, p);
      PairProcessed(m, a.matrix, b.matrix, role, todo, grantor, Elements(rest), a.visited, lost, p, Elements(b.pending));
    }
  }

  /** Every pair the worklist holds or held had a source, or is the revoked role's own. */
  lemma PairsAreInvolved(m: Matrix, n: Matrix, role: Role, todo: set<Privilege>, grantor: Option<Role>, pending: seq<Pair>,
                         visited: set<Pair>)
    requires CascadeInvariant(m, n, role, todo, grantor, Elements(pending), visited)
    ensures Elements(pending) <= Involved(m, role, todo) && visited <= Involved(m, role, todo)
  {
    forall pair | pair in Elements(pending) + visited ensures pair in Involved(m, role, todo) {
      var (x, p) := pair;
      assert (x, p) in Elements(pending) + visited;
      if x != role {
        var s :| Lost(m, n, role, x, p, s);
        assert (x, p) in m.sources;
      }
    }
  }

  lemma {:induction false} RunShrinks(trace: seq<CascadeState>, i: nat)
    requires i < |trace| && CascadeRun(trace) && Coherent(trace[0].matrix)
    ensures Coherent(trace[i].matrix) && Shrunk(trace[0].matrix, trace[i].matrix)
  {
    if i > 0 {
      RunShrinks(trace, i - 1);
      var a, b := trace[i - 1], trace[i];
      assert StepsTo(a, b);
      StepShrinks(a, b);
      ShrunkTransitive(trace[0].matrix, a.matrix, b.matrix);
    }
  }

  lemma StepShrinks(a: CascadeState, b: CascadeState)
    requires Coherent(a.matrix) && StepsTo(a, b)
    ensures Coherent(b.matrix) && Shrunk(a.matrix, b.matrix)
  {
    var (lost, p) := a.pending[|a.pending| - 1];
    if (lost, p) !in a.visited && !HasGrantOption(a.matrix, lost, p) {
      StripKeeps(a.matrix, b.matrix, lost, p, {});
    }
  }

  lemma {:induction false} RunKeepsInvariant(m: Matrix, role: Role, todo: set<Privilege>, grantor: Option<Role>,
                                             trace: seq<CascadeState>, i: nat)
    requires i < |trace| && CascadeRun(trace) && All !in todo
    requires CascadeInvariant(m, trace[0].matrix, role, todo, grantor, Elements(trace[0].pending), trace[0].visited)
    ensures CascadeInvariant(m, trace[i].matrix, role, todo, grantor, Elements(trace[i].pending), trace[i].visited)
  {
    if i > 0 {
      RunKeepsInvariant(m, role, todo, grantor, trace, i - 1);
      StepKeepsInvariant(m, role, todo, grantor, trace[i - 1], trace[i]);
    }
  }

  /** A complete cascade from `m`: the first revoke, then iterations until nothing is pending. */
  ghost predicate CompleteCascade(m: Matrix, role: Role, todo: set<Privilege>, grantor: Option<Role>, trace: seq<CascadeState>) {
    && |trace| > 0 && CascadeRun(trace) && trace[0].visited == {} && trace[|trace| - 1].pending == []
    && Effect(m, trace[0].matrix, role, todo, if grantor.Some? then RemoveSource(grantor.value) else Clear)
    && (forall x, p :: (x, p) in trace[0].pending <==> x == role && p in todo)
  }

  /** In whatever order the receivers come: only removals, only downstream, and an orphan
      only below a role that lost two sources; none at all when sources are single. */
  lemma EveryCascade(m: Matrix, role: Role, todo: set<Privilege>, grantor: Option<Role>, trace: seq<CascadeState>)
    requires Coherent(m) && All !in todo && CompleteCascade(m, role, todo, grantor, trace)
    ensures var n := trace[|trace| - 1].matrix;
            && Coherent(n) && Shrunk(m, n) && OnlyDownstream(m, n, role, todo, grantor)
            && OrphansLostTwo(m, n, role, todo)
            && (SingleSource(m, todo) ==> NoOrphans(m, n, role, todo))
  {
    var change := if grantor.Some? then RemoveSource(grantor.value) else Clear;
    var first := trace[0];
    EffectKeepsCoherent(m, first.matrix, role, todo, change);
    if Sourced(m) {
      EffectKeepsSourced(m, first.matrix, role, todo, change);
    }
    FirstRevoke(m, first.matrix, role, todo, grantor);
    CascadeStarts(m, first.matrix, role, todo, grantor, Elements(first.pending));
    RunKeepsInvariant(m, role, todo, grantor, trace, |trace| - 1);
    CascadeEnds(m, trace[|trace| - 1].matrix, role, todo, grantor, trace[|trace| - 1].visited);
  }
}
