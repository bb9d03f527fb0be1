/** Evidence over a whole chain of files. Records are undone with the transaction that
    recorded them, and a transaction can outlive its file, so a later file can also
    take evidence back. */
module EvidenceRuns {
  import opened Collections
  import opened Identifiers
  import opened GraphModel
  import opened Transactions
  import opened Evidence

  type Log = set<EvidenceRecord>

  const EVIDENCE := Key(0, ObjectId("", "evidence"))

  /** A transaction command, or a record added to the log; the latter happens in an aborted
      transaction too. */
  datatype Event = Control(command: Command<Log>) | Record(record: EvidenceRecord)

  function LogOf(w: World<Log>): Log {
    if EVIDENCE in w.objects then w.objects[EVIDENCE] else {}
  }

  function Append(w: World<Log>, r: EvidenceRecord): Operation<Log> {
    WriteObject(EVIDENCE, Some(LogOf(w) + {r}))
  }

  /** A record already present is dropped without an undo entry. */
  function Happen(s: Session<Log>, e: Event): Session<Log> {
    match e
    case Control(c) => if c.Mutate? then s else Step(s, c)
    case Record(r) =>
      if r in LogOf(s.world) then s
      else Step(s.(aborted := false), Mutate(Append(s.world, r))).(aborted := s.aborted)
  }

  function HappenAll(s: Session<Log>, events: seq<Event>): Session<Log>
    decreases |events|
  {
    if events == [] then s else HappenAll(Happen(s, events[0]), events[1..])
  }

  function PlainHappen(a: Plain<Log>, e: Event): Plain<Log> {
    match e
    case Control(c) => if c.Mutate? then a else PlainStep(a, c)
    case Record(r) =>
      if r in LogOf(a.world) then a
      else PlainStep(a.(aborted := false), Mutate(Append(a.world, r))).(aborted := a.aborted)
  }

  function PlainHappenAll(a: Plain<Log>, events: seq<Event>): Plain<Log>
    decreases |events|
  {
    if events == [] then a else PlainHappenAll(PlainHappen(a, events[0]), events[1..])
  }

  lemma AbortedIsBeside(s: Session<Log>, a: Plain<Log>, aborted: bool)
    requires Related(s, a)
    ensures Related(s.(aborted := aborted), a.(aborted := aborted))
  {
  }

  lemma HappenSimulates(s: Session<Log>, a: Plain<Log>, e: Event)
    requires Related(s, a)
    ensures Related(Happen(s, e), PlainHappen(a, e))
  {
    match e {
      case Control(c) =>
        if !c.Mutate? {
          StepSimulates(s, a, c);
        }
      case Record(r) =>
        if r !in LogOf(s.world) {
          var c := Mutate(Append(s.world, r));
          AbortedIsBeside(s, a, false);
          StepSimulates(s.(aborted := false), a.(aborted := false), c);
          AbortedIsBeside(Step(s.(aborted := false), c), PlainStep(a.(aborted := false), c), s.aborted);
        }
    }
  }

  lemma {:induction false} HappenAllSimulates(s: Session<Log>, a: Plain<Log>, events: seq<Event>)
    requires Related(s, a)
    ensures Related(HappenAll(s, events), PlainHappenAll(a, events))
    decreases |events|
  {
    if events != [] {
      HappenSimulates(s, a, events[0]);
      HappenAllSimulates(Happen(s, events[0]), PlainHappen(a, events[0]), events[1..]);
    }
  }

  /** Saved logs never exceed those saved or held later. */
  ghost predicate Nested(a: Plain<Log>) {
    && (forall i :: 0 <= i < |a.saved| ==> LogOf(a.saved[i].world) <= LogOf(a.world))
    && (forall i, j :: 0 <= i <= j < |a.saved| ==> LogOf(a.saved[i].world) <= LogOf(a.saved[j].world))
  }

  lemma RecordedLog(a: Plain<Log>, r: EvidenceRecord)
    ensures LogOf(PlainHappen(a, Record(r)).world) == LogOf(a.world) + {r}
    ensures PlainHappen(a, Record(r)).saved == a.saved
  {
  }

  lemma EventKeepsNested(a: Plain<Log>, e: Event)
    requires Nested(a)
    ensures Nested(PlainHappen(a, e))
  {
    if e.Record? {
      RecordedLog(a, e.record);
    } else {
      var c := e.command;
      if c.RollbackTo? {
        var found := LastNamed(SavedKinds(a.saved), c.name);
        assert found.Some? ==> found.value < |a.saved|;
      }
    }
  }

  lemma {:induction false} RunKeepsNested(a: Plain<Log>, events: seq<Event>)
    requires Nested(a)
    ensures Nested(PlainHappenAll(a, events))
    decreases |events|
  {
    if events != [] {
      EventKeepsNested(a, events[0]);
      RunKeepsNested(PlainHappen(a, events[0]), events[1..]);
    }
  }

  // ------------------------------------------------- when certainty is settled

  /** What later files can still do: any transaction commands, and records of their own. */
  ghost predicate Later(events: seq<Event>, order: seq<string>, file: nat) {
    && (events != [] ==> file + 1 < |order|)
    && forall e :: e in events && e.Record? ==> exists j :: file < j < |order| && LocatedIn(e.record, order[j])
  }

  function CertaintyIn(s: Session<Log>, order: seq<string>, here: Position, asserted: bool): Certainty {
    CertaintyOf(LogOf(s.world), order, Some(here), asserted)
  }

  /** The certainty computed at the end of the finding's file is final. */
  ghost predicate Settled(s: Session<Log>, order: seq<string>, here: Position, asserted: bool) {
    forall events :: Later(events, order, here.file) ==>
      CertaintyIn(HappenAll(s, events), order, here, asserted) == CertaintyIn(s, order, here, asserted)
  }

  predicate TaintsIn(w: World<Log>, order: seq<string>, here: Position) {
    AnyTaints(LogOf(w), order, Some(here))
  }

  /** The log and every log a rollback can bring back agree about the finding. */
  ghost predicate Agreed(a: Plain<Log>, order: seq<string>, here: Position, tainted: bool) {
    && TaintsIn(a.world, order, here) == tainted
    && forall i :: 0 <= i < |a.saved| ==> TaintsIn(a.saved[i].world, order, here) == tainted
  }

  lemma EventKeepsAgreed(a: Plain<Log>, e: Event, order: seq<string>, here: Position, tainted: bool)
    requires Agreed(a, order, here, tainted)
    requires e.Record? && !tainted ==> !Taints(e.record, order, Some(here))
    ensures Agreed(PlainHappen(a, e), order, here, tainted)
  {
    if e.Record? {
      RecordedLog(a, e.record);
      if tainted {
        var r :| r in LogOf(a.world) && Taints(r, order, Some(here));
        assert r in LogOf(PlainHappen(a, e).world);
      }
    } else {
      var c := e.command;
      if c.RollbackTo? {
        var found := LastNamed(SavedKinds(a.saved), c.name);
        assert found.Some? ==> found.value < |a.saved|;
      }
    }
  }

  lemma {:induction false} RunKeepsAgreed(a: Plain<Log>, events: seq<Event>, order: seq<string>, here: Position, tainted: bool)
    requires Agreed(a, order, here, tainted) && here.file < |order|
    requires Later(events, order, here.file) && (tainted || NoLaterNamesake(order, here.file))
    ensures Agreed(PlainHappenAll(a, events), order, here, tainted)
    decreases |events|
  {
    if events != [] {
      var e := events[0];
      if e.Record? && !tainted {
        var j :| here.file < j < |order| && LocatedIn(e.record, order[j]);
        LaterRecordIsHarmless(e.record, order, j, here);
      }
      EventKeepsAgreed(a, e, order, here, tainted);
      assert forall x :: x in events[1..] ==> x in events;
      RunKeepsAgreed(PlainHappen(a, e), events[1..], order, here, tainted);
    }
  }

  /** Nothing can change the certainty any more: no file follows; or the finding is tainted,
      and was already when the transaction still open began; or it is not, and no later file
      bears a name already seen. */
  predicate Final(s: Session<Log>, order: seq<string>, here: Position)
    requires here.file < |order|
  {
    || here.file + 1 == |order|
    || (if TaintsIn(s.world, order, here)
        then s.frames == [] || TaintsIn(StartOf(s.world, s.frames, 0), order, here)
        else NoLaterNamesake(order, here.file))
  }

  lemma NestedAgree(a: Plain<Log>, order: seq<string>, here: Position)
    requires Nested(a)
    requires TaintsIn(a.world, order, here) && a.saved != [] ==> TaintsIn(a.saved[0].world, order, here)
    ensures Agreed(a, order, here, TaintsIn(a.world, order, here))
  {
    forall i | 0 <= i < |a.saved| ensures TaintsIn(a.saved[i].world, order, here) == TaintsIn(a.world, order, here) {
      assert LogOf(a.saved[0].world) <= LogOf(a.saved[i].world) <= LogOf(a.world);
    }
  }

  lemma FinalIsSettled(s: Session<Log>, a: Plain<Log>, order: seq<string>, here: Position, asserted: bool)
    requires Related(s, a) && Nested(a) && here.file < |order| && Final(s, order, here)
    ensures Settled(s, order, here, asserted)
  {
    RelatedLengths(s, a);
    var tainted := TaintsIn(s.world, order, here);
    forall events | Later(events, order, here.file)
      ensures CertaintyIn(HappenAll(s, events), order, here, asserted) == CertaintyIn(s, order, here, asserted)
    {
      if events != [] {
        assert s.frames != [] ==> StartOf(s.world, s.frames, 0) == a.saved[0].world;
        NestedAgree(a, order, here);
        RunKeepsAgreed(a, events, order, here, tainted);
        HappenAllSimulates(s, a, events);
      }
    }
  }

  lemma OpenIsNotSettled(s: Session<Log>, a: Plain<Log>, order: seq<string>, here: Position, asserted: bool)
    requires Related(s, a) && here.file < |order| && !Final(s, order, here)
    ensures !Settled(s, order, here, asserted)
  {
    if TaintsIn(s.world, order, here) {
      var events := [Control(Rollback(false))];
      assert Later(events, order, here.file);
      assert HappenAll(s, events) == Happen(s, events[0]);
    } else {
      var j :| here.file < j < |order| && order[j] in order[..here.file + 1];
      var r := NamesakeCanTaint(order, j, here);
      var events := [Record(r)];
      assert Later(events, order, here.file);
      assert HappenAll(s, events) == Happen(s, events[0]);
      HappenSimulates(s, a, events[0]);
      RecordedLog(a, r);
      assert r in LogOf(HappenAll(s, events).world);
    }
  }

  /** In every state a chain can reach, the certainty a finding has when its file ends is
      final exactly when `Final` says so. */
  lemma CertaintyIsSettledExactly(edges: seq<Edge>, log: Log, sofar: seq<Event>, order: seq<string>, here: Position, asserted: bool)
    requires Distinct(edges) && here.file < |order|
    ensures var s := HappenAll(Session(World(edges, map[EVIDENCE := log]), [], false), sofar);
            Settled(s, order, here, asserted) <==> Final(s, order, here)
  {
    var world := World(edges, map[EVIDENCE := log]);
    FreshSession(world, false);
    var s, a := HappenAll(Session(world, [], false), sofar), PlainHappenAll(Plain(world, [], false), sofar);
    HappenAllSimulates(Session(world, [], false), Plain(world, [], false), sofar);
    RunKeepsNested(Plain(world, [], false), sofar);
    if Final(s, order, here) {
      FinalIsSettled(s, a, order, here, asserted);
    } else {
      OpenIsNotSettled(s, a, order, here, asserted);
    }
  }

  /** With no transaction left open and no name used again, every finding of the file keeps
      its certainty. */
  lemma CertaintySurvives(edges: seq<Edge>, log: Log, sofar: seq<Event>, later: seq<Event>, order: seq<string>, here: Position, asserted: bool)
    requires Distinct(edges) && here.file < |order| && NoLaterNamesake(order, here.file) && Later(later, order, here.file)
    requires HappenAll(Session(World(edges, map[EVIDENCE := log]), [], false), sofar).frames == []
    ensures var s := HappenAll(Session(World(edges, map[EVIDENCE := log]), [], false), sofar);
            CertaintyIn(HappenAll(s, later), order, here, asserted) == CertaintyIn(s, order, here, asserted)
  {
    CertaintyIsSettledExactly(edges, log, sofar, order, here, asserted);
  }

  /** A transaction opened in one file and rolled back in the next turns a tainted finding
      exact, though the names differ. */
  lemma RollbackInLaterFileClears(order: seq<string>, r: EvidenceRecord, here: Position)
    requires |order| == 2 && order[0] != order[1] && here == Position(0, 2)
    requires r == EvidenceRecord(UnsupportedStatement, ChainScope, "", Some(EvidenceLocation(order[0], 1)))
    ensures var s := HappenAll(Session(World([], map[]), [], false), [Control(Begin), Record(r)]);
            && CertaintyIn(s, order, here, false) == Tainted
            && CertaintyIn(HappenAll(s, [Control(Rollback(false))]), order, here, false) == Exact
  {
    var w := World([], map[]);
    var s0 := Session(w, [], false);
    var s1 := Happen(s0, Control(Begin));
    var s2 := Happen(s1, Record(r));
    var events := [Control(Begin), Record(r)];
    assert events[1..] == [Record(r)] && events[1..][1..] == [];
    assert HappenAll(s0, events) == HappenAll(s1, events[1..]) == s2;
    assert FilePosition(order, order[0]) == Some(0);
    assert Taints(r, order, Some(here));
    assert s1.frames == [Frame(Root, [])] && r !in LogOf(w);
    var log := s2.frames[0].undoLog;
    assert log == [] + [Recorded(w, Append(w, r))] == [ObjectSnapshot(EVIDENCE, None)];
    assert |s2.frames| == 1 && log[..0] == [];
    assert StartOf(s2.world, s2.frames, 0) == UndoAll(s2.world, log) == Undo(s2.world, log[0]);
    assert LogOf(Undo(s2.world, log[0])) == {};
  }
}
