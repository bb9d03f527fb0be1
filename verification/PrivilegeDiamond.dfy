/** A delegation diamond: whatever the order, cascading from its top orphans its leaf. */
module PrivilegeDiamond {
  import opened Collections
  import opened Identifiers
  import opened PrivilegeLedger
  import opened PrivilegeCascade

  /** `top` gave to `left` and `right`, both gave to `joint`, and `joint` gave to `leaf`. */
  datatype Diamond = Diamond(giver: Role, top: Role, left: Role, right: Role, joint: Role, leaf: Role, privilege: Privilege)

  predicate Proper(d: Diamond) {
    && d.privilege != All
    && Distinct([d.top, d.left, d.right, d.joint, d.leaf])
  }

  function Givers(d: Diamond, r: Role): set<Role> {
    if r == d.left || r == d.right then {d.top}
    else if r == d.joint then {d.left, d.right}
    else if r == d.leaf then {d.joint}
    else {}
  }

  /** A cell whose givers in `gone` were stripped; only the leaf has no option. */
  function CellOf(d: Diamond, r: Role, gone: set<Role>): Cell {
    var s := Givers(d, r) - gone;
    Cell(s != {}, s != {} && r != d.leaf, s, if r == d.leaf then {} else s)
  }

  ghost predicate Looks(d: Diamond, n: Matrix, gone: set<Role>) {
    && (forall r :: At(n, r, d.privilege) == CellOf(d, r, gone))
    && (forall r :: !At(n, r, All).option)
  }

  /** The diamond before its top is revoked. */
  ghost predicate Intact(d: Diamond, m: Matrix) {
    && (forall r :: At(m, r, d.privilege) ==
                    if r == d.top then Cell(true, true, {d.giver}, {d.giver}) else CellOf(d, r, {}))
    && (forall r :: !At(m, r, All).option)
  }

  function Gone(d: Diamond, visited: set<Pair>): set<Role> {
    set r | r in {d.top, d.left, d.right} && (r, d.privilege) in visited
  }

  predicate Known(d: Diamond, s: CascadeState, r: Role) {
    (r, d.privilege) in s.pending || (r, d.privilege) in s.visited
  }

  predicate OneSideGone(d: Diamond, s: CascadeState) {
    (d.left, d.privilege) in s.visited || (d.right, d.privilege) in s.visited
  }

  /** The sides follow the top, the joint follows a side; and until the joint is visited it is
      on top of the stack, with only one side gone. */
  ghost predicate Underway(d: Diamond, s: CascadeState) {
    var p := d.privilege;
    && Looks(d, s.matrix, Gone(d, s.visited))
    && (forall x, q :: (x, q) in s.pending || (x, q) in s.visited ==> q == p && x in {d.top, d.left, d.right, d.joint})
    && Known(d, s, d.top)
    && ((d.top, p) in s.visited ==> Known(d, s, d.left) && Known(d, s, d.right))
    && (Known(d, s, d.left) || Known(d, s, d.right) ==> (d.top, p) in s.visited)
    && (Known(d, s, d.joint) ==> OneSideGone(d, s))
    && (OneSideGone(d, s) && (d.joint, p) !in s.visited ==>
          && s.pending != [] && s.pending[|s.pending| - 1] == (d.joint, p)
          && !((d.left, p) in s.visited && (d.right, p) in s.visited))
  }

  lemma StripLooks(d: Diamond, m: Matrix, n: Matrix, gone: set<Role>, lost: Role)
    requires Proper(d) && Looks(d, m, gone) && Stripped(m, n, lost, d.privilege, {})
    ensures Looks(d, n, gone + {lost})
  {
    forall r ensures At(n, r, d.privilege) == CellOf(d, r, gone + {lost}) {
      var c := At(m, r, d.privilege);
      assert Givers(d, r) - (gone + {lost}) == c.sources - {lost};
      assert c.optionSources - {lost} == if r == d.leaf then {} else c.sources - {lost};
    }
    forall r ensures !At(n, r, All).option {
      assert At(n, r, All) == At(m, r, All);
    }
  }

  /** A side or the top, stripped: who is queued. */
  lemma Receivers(d: Diamond, m: Matrix, gone: set<Role>, lost: Role, r: Role)
    requires Proper(d) && Looks(d, m, gone) && lost !in gone
    ensures lost == d.top ==> (lost in At(m, r, d.privilege).sources <==> r == d.left || r == d.right)
    ensures lost == d.left || lost == d.right ==> (lost in At(m, r, d.privilege).sources <==> r == d.joint)
  {
    var apart := [d.top, d.left, d.right, d.joint, d.leaf];
    assert forall i, j :: 0 <= i < j < |apart| ==> apart[i] != apart[j];
    assert d.top == apart[0] && d.left == apart[1] && d.right == apart[2] && d.joint == apart[3] && d.leaf == apart[4];
  }

  lemma GoneGrows(d: Diamond, visited: set<Pair>, lost: Role)
    requires lost in {d.top, d.left, d.right}
    ensures Gone(d, visited + {(lost, d.privilege)}) == Gone(d, visited) + {lost}
  {
  }

  lemma Apart(d: Diamond)
    requires Proper(d)
    ensures d.top != d.left && d.top != d.right && d.top != d.joint && d.top != d.leaf && d.left != d.right
    ensures d.left != d.joint && d.left != d.leaf && d.right != d.joint && d.right != d.leaf && d.joint != d.leaf
  {
    var s := [d.top, d.left, d.right, d.joint, d.leaf];
    assert s[0] != s[1] && s[0] != s[2] && s[0] != s[3] && s[0] != s[4] && s[1] != s[2];
    assert s[1] != s[3] && s[1] != s[4] && s[2] != s[3] && s[2] != s[4] && s[3] != s[4];
  }

  /** Who may still give when popped for the first time: only the joint. */
  lemma PoppedOption(d: Diamond, s: CascadeState, lost: Role)
    requires Proper(d) && Underway(d, s) && s.pending != [] && s.pending[|s.pending| - 1] == (lost, d.privilege)
    requires (lost, d.privilege) !in s.visited
    ensures HasGrantOption(s.matrix, lost, d.privilege) <==> lost == d.joint
  {
    Apart(d);
    var p := d.privilege;
    assert (lost, p) in s.pending;
    assert At(s.matrix, lost, p) == CellOf(d, lost, Gone(d, s.visited)) && !At(s.matrix, lost, All).option;
    if lost == d.joint {
      var side := if (d.left, p) in s.visited then d.right else d.left;
      assert side in Givers(d, d.joint) - Gone(d, s.visited);
    } else {
      assert Givers(d, lost) - Gone(d, s.visited) == {};
    }
  }

  predicate Receives(d: Diamond, lost: Role, x: Role) {
    if lost == d.top then x == d.left || x == d.right else x == d.joint
  }

  /** What a strip does to the state: one role more is visited, its receivers are queued, and
      behind a side the joint comes on top. */
  lemma StripQueues(d: Diamond, a: CascadeState, b: CascadeState, lost: Role)
    requires Proper(d) && Underway(d, a) && StepsTo(a, b) && a.pending[|a.pending| - 1] == (lost, d.privilege)
    requires (lost, d.privilege) !in a.visited && lost in {d.top, d.left, d.right}
    ensures b.visited == a.visited + {(lost, d.privilege)} && Looks(d, b.matrix, Gone(d, b.visited))
    ensures forall x, q :: (x, q) in a.pending ==> (x, q) in b.pending || (x, q) == (lost, d.privilege)
    ensures forall x, q :: (x, q) in b.pending ==> (x, q) in a.pending || (q == d.privilege && Receives(d, lost, x))
    ensures forall x :: Receives(d, lost, x) ==> (x, d.privilege) in b.pending
    ensures lost != d.top ==> b.pending != [] && b.pending[|b.pending| - 1] == (d.joint, d.privilege)
  {
    Apart(d);
    var p, n := d.privilege, |a.pending| - 1;
    var rest := a.pending[..n];
    PoppedOption(d, a, lost);
    StripLooks(d, a.matrix, b.matrix, Gone(d, a.visited), lost);
    GoneGrows(d, a.visited, lost);
    forall r ensures lost in At(a.matrix, r, p).sources <==> Receives(d, lost, r) {
      Receivers(d, a.matrix, Gone(d, a.visited), lost, r);
    }
    QueueSplits(a.pending, b.pending, (lost, p), p, r => Receives(d, lost, r));
    if lost != d.top {
      assert Receives(d, lost, d.joint);
    }
  }

  /** A popped stack with pairs of one privilege pushed on it. */
  lemma QueueSplits(old_: seq<Pair>, new_: seq<Pair>, popped: Pair, p: Privilege, pushed: Role -> bool)
    requires old_ != [] && old_[|old_| - 1] == popped && |new_| >= |old_| - 1 && new_[..|old_| - 1] == old_[..|old_| - 1]
    requires forall r, q :: (r, q) in new_[|old_| - 1..] <==> q == p && pushed(r)
    ensures forall x, q :: (x, q) in old_ ==> (x, q) in new_ || (x, q) == popped
    ensures forall x, q :: (x, q) in new_ ==> (x, q) in old_ || (q == p && pushed(x))
    ensures forall x :: pushed(x) ==> (x, p) in new_
    ensures (exists x :: pushed(x)) ==> new_ != [] && new_[|new_| - 1].1 == p && pushed(new_[|new_| - 1].0)
  {
    var n := |old_| - 1;
    var rest, top := old_[..n], new_[n..];
    assert old_ == rest + [popped] && new_ == rest + top;
    if x :| pushed(x) {
      assert (x, p) in top;
      var (y, q) := top[|top| - 1];
      assert (y, q) in top && new_[|new_| - 1] == (y, q);
    }
  }

  lemma StripUnderway(d: Diamond, a: CascadeState, b: CascadeState, lost: Role)
    requires Proper(d) && Underway(d, a) && StepsTo(a, b) && a.pending[|a.pending| - 1] == (lost, d.privilege)
    requires (lost, d.privilege) !in a.visited && lost in {d.top, d.left, d.right}
    ensures Underway(d, b)
  {
    Apart(d);
    StripQueues(d, a, b, lost);
    assert (lost, d.privilege) in a.pending;
  }

  lemma StepStaysUnderway(d: Diamond, a: CascadeState, b: CascadeState)
    requires Proper(d) && Underway(d, a) && StepsTo(a, b)
    ensures Underway(d, b)
  {
    Apart(d);
    var n := |a.pending| - 1;
    var (lost, q) := a.pending[n];
    assert (lost, q) in a.pending && q == d.privilege;
    assert a.pending == a.pending[..n] + [(lost, q)];
    if (lost, q) in a.visited {
    } else if lost == d.joint {
      PoppedOption(d, a, lost);
      assert Gone(d, b.visited) == Gone(d, a.visited);
    } else {
      StripUnderway(d, a, b, lost);
    }
  }

  lemma {:induction false} RunStaysUnderway(d: Diamond, trace: seq<CascadeState>, i: nat)
    requires Proper(d) && i < |trace| && CascadeRun(trace) && Underway(d, trace[0])
    ensures Underway(d, trace[i])
  {
    if i > 0 {
      RunStaysUnderway(d, trace, i - 1);
      StepStaysUnderway(d, trace[i - 1], trace[i]);
    }
  }

  lemma StartIsUnderway(d: Diamond, m: Matrix, start: CascadeState)
    requires Proper(d) && Intact(d, m) && Effect(m, start.matrix, d.top, {d.privilege}, RemoveSource(d.giver))
    requires start.visited == {} && forall x, p :: (x, p) in start.pending <==> x == d.top && p in {d.privilege}
    ensures Underway(d, start)
  {
    Apart(d);
    assert Gone(d, start.visited) == {};
    forall r ensures At(start.matrix, r, d.privilege) == CellOf(d, r, {}) {
      if r == d.top {
        assert {d.giver} - {d.giver} == {};
      }
    }
    forall r ensures !At(start.matrix, r, All).option {
      assert At(start.matrix, r, All) == At(m, r, All);
    }
  }

  /** Every complete cascade from the top of a diamond leaves the leaf orphaned. */
  lemma DiamondAlwaysOrphans(d: Diamond, m: Matrix, trace: seq<CascadeState>)
    requires Proper(d) && Intact(d, m) && CompleteCascade(m, d.top, {d.privilege}, Some(d.giver), trace)
    ensures Orphan(m, trace[|trace| - 1].matrix, d.top, d.joint, d.privilege, d.leaf)
  {
    Apart(d);
    StartIsUnderway(d, m, trace[0]);
    RunStaysUnderway(d, trace, |trace| - 1);
    var s := trace[|trace| - 1];
    assert At(m, d.joint, d.privilege) == CellOf(d, d.joint, {});
    assert d.left in Givers(d, d.joint) - {};
    assert Gone(d, s.visited) == {d.top, d.left, d.right};
    assert At(s.matrix, d.joint, d.privilege) == CellOf(d, d.joint, {d.top, d.left, d.right});
    assert Givers(d, d.joint) - {d.top, d.left, d.right} == {} && !At(s.matrix, d.joint, All).option;
    assert At(s.matrix, d.leaf, d.privilege) == CellOf(d, d.leaf, {d.top, d.left, d.right});
  }

  // ------------------------------------------------- diamonds exist

  /** The four maps of an intact diamond. */
  function Built(d: Diamond): Matrix {
    var p := d.privilege;
    var holders := map[d.top := {p}, d.left := {p}, d.right := {p}, d.joint := {p}];
    var sources := map[(d.top, p) := {d.giver}, (d.left, p) := {d.top}, (d.right, p) := {d.top}, (d.joint, p) := {d.left, d.right}];
    Matrix(holders[d.leaf := {p}], holders, sources[(d.leaf, p) := {d.joint}], sources)
  }

  lemma BuiltAt(d: Diamond, r: Role, q: Privilege)
    requires Proper(d)
    ensures At(Built(d), r, q) ==
            if q != d.privilege then Cell(false, false, {}, {})
            else if r == d.top then Cell(true, true, {d.giver}, {d.giver})
            else CellOf(d, r, {})
  {
    Apart(d);
    assert Givers(d, r) - {} == Givers(d, r);
  }

  /** Such a matrix is one every ledger run can start from. */
  lemma DiamondsExist(d: Diamond)
    requires Proper(d)
    ensures Intact(d, Built(d)) && Sourced(Built(d))
  {
    var m := Built(d);
    forall r, q
      ensures CellCoherent(At(m, r, q)) && CellSourced(At(m, r, q)) && (q == All ==> !At(m, r, q).held)
    {
      BuiltAt(d, r, q);
    }
    forall r ensures At(m, r, d.privilege) == if r == d.top then Cell(true, true, {d.giver}, {d.giver}) else CellOf(d, r, {}) {
      BuiltAt(d, r, d.privilege);
    }
  }
}
