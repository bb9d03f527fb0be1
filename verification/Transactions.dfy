/** Transactions and savepoints by undo log, against the plain reading that saves a copy
    of the state at each frame. */
module Transactions {
  import opened Collections
  import opened Identifiers
  import opened GraphModel
  import opened GraphRename

  /** A tracked object or setting: the family it belongs to, and its name there. */
  datatype Key = Key(family: nat, id: ObjectId)

  /** The rolled-back part of the analysis state. */
  datatype World<V> = World(edges: seq<Edge>, objects: map<Key, V>)

  /** Undo entries: one object's earlier value, a graph length taken before edges are only
      added, all edges taken before they are rewritten, or everything at once. */
  datatype StateChange<V> =
    | ObjectSnapshot(key: Key, previous: Option<V>)
    | GraphLengthMarker(len: nat)
    | GraphSnapshot(previousEdges: seq<Edge>)
    | NamespaceSnapshot(previousObjects: map<Key, V>, namespaceEdges: seq<Edge>)

  datatype FrameKind = Root | Savepoint(name: string)

  datatype Frame<V> = Frame(kind: FrameKind, undoLog: seq<StateChange<V>>)

  function Put<V>(objects: map<Key, V>, key: Key, value: Option<V>): map<Key, V> {
    if value.Some? then objects[key := value.value] else objects - {key}
  }

  function Get<V>(objects: map<Key, V>, key: Key): Option<V> {
    if key in objects then Some(objects[key]) else None
  }

  function Undo<V>(w: World<V>, change: StateChange<V>): World<V> {
    match change
    case ObjectSnapshot(key, previous) => w.(objects := Put(w.objects, key, previous))
    case GraphLengthMarker(len) => if len >= |w.edges| then w else w.(edges := w.edges[..len])
    case GraphSnapshot(previous) => w.(edges := Dedup(previous))
    case NamespaceSnapshot(objects, edges) => World(Dedup(edges), objects)
  }

  /** Newest entry first. */
  function UndoAll<V>(w: World<V>, log: seq<StateChange<V>>): World<V>
    decreases |log|
  {
    if log == [] then w else UndoAll(Undo(w, log[|log| - 1]), log[..|log| - 1])
  }

  lemma {:induction false} UndoAllConcat<V>(w: World<V>, a: seq<StateChange<V>>, b: seq<StateChange<V>>)
    ensures UndoAll(w, a + b) == UndoAll(UndoAll(w, b), a)
    decreases |b|
  {
    if b == [] {
      assert a + b == a;
    } else {
      var n := |b| - 1;
      assert (a + b)[..|a + b| - 1] == a + b[..n];
      UndoAllConcat(Undo(w, b[n]), a, b[..n]);
    }
  }

  // ------------------------------------------------- mutations and what they log

  datatype Operation<V> =
    | WriteObject(key: Key, value: Option<V>)
    | AddEdges(added: seq<Edge>)
    | RewriteEdges(rewritten: seq<Edge>)
    | RewriteNamespace(objects: map<Key, V>, moved: seq<Edge>)

  function AddAll(es: seq<Edge>, added: seq<Edge>): seq<Edge>
    decreases |added|
  {
    if added == [] then es else AddAll(Added(es, added[0]), added[1..])
  }

  function Performed<V>(w: World<V>, op: Operation<V>): World<V> {
    match op
    case WriteObject(key, value) => w.(objects := Put(w.objects, key, value))
    case AddEdges(added) => w.(edges := AddAll(w.edges, added))
    case RewriteEdges(rewritten) => w.(edges := Dedup(rewritten))
    case RewriteNamespace(objects, moved) => World(Dedup(moved), objects)
  }

  /** What is recorded before the operation runs. */
  function Recorded<V>(w: World<V>, op: Operation<V>): StateChange<V> {
    match op
    case WriteObject(key, _) => ObjectSnapshot(key, Get(w.objects, key))
    case AddEdges(_) => GraphLengthMarker(|w.edges|)
    case RewriteEdges(_) => GraphSnapshot(w.edges)
    case RewriteNamespace(_, _) => NamespaceSnapshot(w.objects, w.edges)
  }

  lemma {:induction false} AddedExtends(es: seq<Edge>, added: seq<Edge>)
    ensures es <= AddAll(es, added)
    ensures Distinct(es) ==> Distinct(AddAll(es, added))
    decreases |added|
  {
    if added != [] {
      AddedExtends(Added(es, added[0]), added[1..]);
    }
  }

  /** Undoing what was recorded takes back exactly the operation. */
  lemma UndoTakesBack<V>(w: World<V>, op: Operation<V>)
    requires Distinct(w.edges)
    ensures Undo(Performed(w, op), Recorded(w, op)) == w
    ensures Distinct(Performed(w, op).edges)
  {
    match op {
      case WriteObject(key, value) =>
        assert Put(Put(w.objects, key, value), key, Get(w.objects, key)) == w.objects;
      case AddEdges(added) =>
        AddedExtends(w.edges, added);
      case RewriteEdges(rewritten) =>
        DedupOfDistinct(w.edges);
        DedupKeepsElements(rewritten);
      case RewriteNamespace(objects, moved) =>
        DedupOfDistinct(w.edges);
        DedupKeepsElements(moved);
    }
  }

  // ------------------------------------------------- the analyzer's machine

  datatype Session<V> = Session(world: World<V>, frames: seq<Frame<V>>, aborted: bool)

  datatype Command<V> =
    | Begin
    | Commit(chain: bool)
    | Rollback(chain: bool)
    | SetSavepoint(name: string)
    | RollbackTo(name: string)
    | Release(name: string)
    | Mutate(op: Operation<V>)

  /** Position of the innermost savepoint of a name. */
  function LastNamed(kinds: seq<FrameKind>, name: string): (r: Option<nat>)
    ensures r.None? <==> Savepoint(name) !in kinds
    ensures r.Some? ==> r.value < |kinds| && kinds[r.value] == Savepoint(name)
    ensures r.Some? ==> forall k :: r.value < k < |kinds| ==> kinds[k] != Savepoint(name)
  {
    if kinds == [] then None
    else if kinds[|kinds| - 1] == Savepoint(name) then Some(|kinds| - 1)
    else LastNamed(kinds[..|kinds| - 1], name)
  }

  function Kinds<V>(frames: seq<Frame<V>>): seq<FrameKind> {
    seq(|frames|, i requires 0 <= i < |frames| => frames[i].kind)
  }

  /** The state at the start of frame `i`: all later frames undone, innermost first. */
  function StartOf<V>(w: World<V>, frames: seq<Frame<V>>, i: nat): World<V>
    requires i <= |frames|
    decreases |frames| - i
  {
    if i == |frames| then w else UndoAll(StartOf(w, frames, i + 1), frames[i].undoLog)
  }

  /** The logs from frame `i` on, outermost first, as a release appends them. */
  function LogsFrom<V>(frames: seq<Frame<V>>, i: nat): seq<StateChange<V>>
    requires i <= |frames|
    decreases |frames| - i
  {
    if i == |frames| then [] else frames[i].undoLog + LogsFrom(frames, i + 1)
  }

  function Chained<V>(world: World<V>, chain: bool): Session<V> {
    Session(world, if chain then [Frame(Root, [])] else [], false)
  }

  function Step<V>(s: Session<V>, c: Command<V>): Session<V> {
    match c
    case Begin => if s.aborted || s.frames != [] then s else s.(frames := [Frame(Root, [])])
    case Commit(chain) =>
      if chain && s.frames == [] then s
      else Chained(if s.aborted then StartOf(s.world, s.frames, 0) else s.world, chain)
    case Rollback(chain) =>
      if chain && s.frames == [] then s else Chained(StartOf(s.world, s.frames, 0), chain)
    case SetSavepoint(name) =>
      if s.aborted || s.frames == [] then s else s.(frames := s.frames + [Frame(Savepoint(name), [])])
    case RollbackTo(name) => (
      match LastNamed(Kinds(s.frames), name)
      case None => s.(aborted := s.aborted || s.frames != [])
      case Some(p) =>
        Session(StartOf(s.world, s.frames, p), s.frames[..p] + [s.frames[p].(undoLog := [])], false))
    case Release(name) =>
      if s.aborted then s
      else (
        match LastNamed(Kinds(s.frames), name)
        case None => s.(aborted := s.frames != [])
        case Some(p) =>
          if p == 0 then s.(aborted := true)
          else
            var outer := s.frames[p - 1];
            s.(frames := s.frames[..p - 1] + [outer.(undoLog := outer.undoLog + LogsFrom(s.frames, p))]))
    case Mutate(op) =>
      if s.aborted then s
      else
        var frames := if s.frames == [] then []
                      else
                        var n := |s.frames| - 1;
                        s.frames[n := s.frames[n].(undoLog := s.frames[n].undoLog + [Recorded(s.world, op)])];
        Session(Performed(s.world, op), frames, false)
  }

  // ------------------------------------------------- the plain machine

  datatype Saved<V> = Saved(kind: FrameKind, world: World<V>)

  datatype Plain<V> = Plain(world: World<V>, saved: seq<Saved<V>>, aborted: bool)

  function SavedKinds<V>(saved: seq<Saved<V>>): seq<FrameKind> {
    seq(|saved|, i requires 0 <= i < |saved| => saved[i].kind)
  }

  function PlainChained<V>(world: World<V>, chain: bool): Plain<V> {
    Plain(world, if chain then [Saved(Root, world)] else [], false)
  }

  /** The same commands, with a copy of the state saved at each frame. */
  function PlainStep<V>(s: Plain<V>, c: Command<V>): Plain<V> {
    match c
    case Begin => if s.aborted || s.saved != [] then s else s.(saved := [Saved(Root, s.world)])
    case Commit(chain) =>
      if chain && s.saved == [] then s
      else PlainChained(if s.aborted && s.saved != [] then s.saved[0].world else s.world, chain)
    case Rollback(chain) =>
      if chain && s.saved == [] then s else PlainChained(if s.saved != [] then s.saved[0].world else s.world, chain)
    case SetSavepoint(name) =>
      if s.aborted || s.saved == [] then s else s.(saved := s.saved + [Saved(Savepoint(name), s.world)])
    case RollbackTo(name) => (
      match LastNamed(SavedKinds(s.saved), name)
      case None => s.(aborted := s.aborted || s.saved != [])
      case Some(p) => Plain(s.saved[p].world, s.saved[..p + 1], false))
    case Release(name) =>
      if s.aborted then s
      else (
        match LastNamed(SavedKinds(s.saved), name)
        case None => s.(aborted := s.saved != [])
        case Some(p) => if p == 0 then s.(aborted := true) else s.(saved := s.saved[..p]))
    case Mutate(op) => if s.aborted then s else s.(world := Performed(s.world, op))
  }

  // ------------------------------------------------- simulation

  ghost predicate Related<V>(s: Session<V>, a: Plain<V>) {
    && s.world == a.world && s.aborted == a.aborted && Kinds(s.frames) == SavedKinds(a.saved)
    && Distinct(s.world.edges)
    && (forall i :: 0 <= i < |s.frames| ==> StartOf(s.world, s.frames, i) == a.saved[i].world)
    && (forall i :: 0 <= i < |a.saved| ==> Distinct(a.saved[i].world.edges))
  }

  lemma RelatedLengths<V>(s: Session<V>, a: Plain<V>)
    requires Related(s, a)
    ensures |s.frames| == |a.saved|
  {
    assert |Kinds(s.frames)| == |s.frames| && |SavedKinds(a.saved)| == |a.saved|;
  }

  lemma {:induction false} LogsFromUndo<V>(w: World<V>, frames: seq<Frame<V>>, i: nat)
    requires i <= |frames|
    ensures UndoAll(w, LogsFrom(frames, i)) == StartOf(w, frames, i)
    decreases |frames| - i
  {
    if i < |frames| {
      LogsFromUndo(w, frames, i + 1);
      UndoAllConcat(w, frames[i].undoLog, LogsFrom(frames, i + 1));
    }
  }

  /** Frames below `n` start where they did if frame `n` does and they are unchanged. */
  lemma {:induction false} LowerFramesKeepStart<V>(w: World<V>, frames: seq<Frame<V>>, w2: World<V>, frames2: seq<Frame<V>>, n: nat, i: nat)
    requires i <= n <= |frames| && n <= |frames2| && frames[..n] == frames2[..n]
    requires StartOf(w, frames, n) == StartOf(w2, frames2, n)
    ensures StartOf(w, frames, i) == StartOf(w2, frames2, i)
    decreases n - i
  {
    if i < n {
      assert frames[i] == frames[..n][i] && frames2[i] == frames2[..n][i];
      LowerFramesKeepStart(w, frames, w2, frames2, n, i + 1);
    }
  }

  /** Pushing an empty frame saves the current state. */
  lemma PushedFrame<V>(s: Session<V>, a: Plain<V>, kind: FrameKind)
    requires Related(s, a)
    ensures Related(s.(frames := s.frames + [Frame(kind, [])]), a.(saved := a.saved + [Saved(kind, a.world)]))
  {
    RelatedLengths(s, a);
    var frames := s.frames + [Frame(kind, [])];
    var n := |s.frames|;
    assert Kinds(frames) == Kinds(s.frames) + [kind];
    assert SavedKinds(a.saved + [Saved(kind, a.world)]) == SavedKinds(a.saved) + [kind];
    assert frames[..n] == s.frames[..n];
    assert StartOf(s.world, frames, n + 1) == s.world;
    forall i | 0 <= i < n ensures StartOf(s.world, frames, i) == a.saved[i].world {
      LowerFramesKeepStart(s.world, s.frames, s.world, frames, n, i);
    }
  }

  /** A session without frames, or one fresh root frame, is related to its plain reading. */
  lemma FreshSession<V>(world: World<V>, chain: bool)
    requires Distinct(world.edges)
    ensures Related(Chained(world, chain), PlainChained(world, chain))
  {
    var s, a := Session(world, [], false), Plain(world, [], false);
    assert Related(s, a);
    PushedFrame(s, a, Root);
    assert s.frames + [Frame(Root, [])] == [Frame(Root, [])] && a.saved + [Saved(Root, world)] == [Saved(Root, world)];
  }

  lemma RollbackSimulates<V>(s: Session<V>, a: Plain<V>, c: Command<V>)
    requires Related(s, a) && (c.Commit? || c.Rollback?)
    ensures Related(Step(s, c), PlainStep(a, c))
  {
    RelatedLengths(s, a);
    assert s.frames != [] ==> StartOf(s.world, s.frames, 0) == a.saved[0].world;
    assert s.frames == [] ==> StartOf(s.world, s.frames, 0) == s.world;
    if !(c.chain && s.frames == []) {
      FreshSession(Step(s, c).world, c.chain);
    }
  }

  lemma RollbackToSimulates<V>(s: Session<V>, a: Plain<V>, name: string)
    requires Related(s, a)
    ensures Related(Step(s, RollbackTo(name)), PlainStep(a, RollbackTo(name)))
  {
    RelatedLengths(s, a);
    var found := LastNamed(Kinds(s.frames), name);
    if found.Some? {
      var p := found.value;
      var world := StartOf(s.world, s.frames, p);
      var frames := s.frames[..p] + [s.frames[p].(undoLog := [])];
      assert Kinds(frames) == Kinds(s.frames)[..p + 1] && SavedKinds(a.saved[..p + 1]) == SavedKinds(a.saved)[..p + 1];
      assert frames[..p] == s.frames[..p];
      assert StartOf(world, frames, p + 1) == world;
      assert StartOf(world, frames, p) == world;
      forall i | 0 <= i < p ensures StartOf(world, frames, i) == a.saved[i].world {
        LowerFramesKeepStart(s.world, s.frames, world, frames, p, i);
      }
    }
  }

  lemma ReleaseSimulates<V>(s: Session<V>, a: Plain<V>, name: string)
    requires Related(s, a)
    ensures Related(Step(s, Release(name)), PlainStep(a, Release(name)))
  {
    RelatedLengths(s, a);
    var found := LastNamed(Kinds(s.frames), name);
    if !s.aborted && found.Some? && found.value > 0 {
      var p := found.value;
      var outer := s.frames[p - 1];
      var merged := outer.undoLog + LogsFrom(s.frames, p);
      var frames := s.frames[..p - 1] + [outer.(undoLog := merged)];
      assert Kinds(frames) == Kinds(s.frames)[..p] && SavedKinds(a.saved[..p]) == SavedKinds(a.saved)[..p];
      assert frames[..p - 1] == s.frames[..p - 1];
      UndoAllConcat(s.world, outer.undoLog, LogsFrom(s.frames, p));
      LogsFromUndo(s.world, s.frames, p);
      assert StartOf(s.world, frames, p) == s.world;
      assert StartOf(s.world, frames, p - 1) == StartOf(s.world, s.frames, p - 1);
      forall i | 0 <= i < p ensures StartOf(s.world, frames, i) == a.saved[i].world {
        LowerFramesKeepStart(s.world, s.frames, s.world, frames, p - 1, i);
      }
    }
  }

  lemma MutateSimulates<V>(s: Session<V>, a: Plain<V>, op: Operation<V>)
    requires Related(s, a)
    ensures Related(Step(s, Mutate(op)), PlainStep(a, Mutate(op)))
  {
    RelatedLengths(s, a);
    UndoTakesBack(s.world, op);
    if !s.aborted && s.frames != [] {
      var n := |s.frames| - 1;
      var after := Step(s, Mutate(op));
      var log := s.frames[n].undoLog;
      assert Kinds(after.frames) == Kinds(s.frames);
      assert (log + [Recorded(s.world, op)])[..|log|] == log;
      assert StartOf(after.world, after.frames, n + 1) == after.world;
      assert StartOf(s.world, s.frames, n + 1) == s.world;
      assert StartOf(after.world, after.frames, n) == StartOf(s.world, s.frames, n);
      assert s.frames[..n] == after.frames[..n];
      forall i | 0 <= i <= n ensures StartOf(after.world, after.frames, i) == a.saved[i].world {
        LowerFramesKeepStart(s.world, s.frames, after.world, after.frames, n, i);
      }
    }
  }

  /** Every command keeps the undo-log machine in step with the plain one. */
  lemma StepSimulates<V>(s: Session<V>, a: Plain<V>, c: Command<V>)
    requires Related(s, a)
    ensures Related(Step(s, c), PlainStep(a, c))
  {
    RelatedLengths(s, a);
    match c {
      case Begin =>
        if !s.aborted && s.frames == [] {
          PushedFrame(s, a, Root);
          assert s.frames + [Frame(Root, [])] == [Frame(Root, [])] && a.saved + [Saved(Root, a.world)] == [Saved(Root, a.world)];
        }
      case Commit(_) => RollbackSimulates(s, a, c);
      case Rollback(_) => RollbackSimulates(s, a, c);
      case SetSavepoint(name) => PushedFrame(s, a, Savepoint(name));
      case RollbackTo(name) => RollbackToSimulates(s, a, name);
      case Release(name) => ReleaseSimulates(s, a, name);
      case Mutate(op) => MutateSimulates(s, a, op);
    }
  }

  function RunAll<V>(s: Session<V>, cs: seq<Command<V>>): Session<V>
    decreases |cs|
  {
    if cs == [] then s else RunAll(Step(s, cs[0]), cs[1..])
  }

  function PlainRunAll<V>(s: Plain<V>, cs: seq<Command<V>>): Plain<V>
    decreases |cs|
  {
    if cs == [] then s else PlainRunAll(PlainStep(s, cs[0]), cs[1..])
  }

  lemma {:induction false} RunsStayRelated<V>(s: Session<V>, a: Plain<V>, cs: seq<Command<V>>)
    requires Related(s, a)
    ensures Related(RunAll(s, cs), PlainRunAll(a, cs))
    decreases |cs|
  {
    if cs != [] {
      StepSimulates(s, a, cs[0]);
      RunsStayRelated(Step(s, cs[0]), PlainStep(a, cs[0]), cs[1..]);
    }
  }

  /** Over every run of commands, undoing logs leaves exactly the state that saving copies
      would have left. */
  lemma UndoLogsRefineCopies<V>(world: World<V>, cs: seq<Command<V>>)
    requires Distinct(world.edges)
    ensures RunAll(Session(world, [], false), cs).world == PlainRunAll(Plain(world, [], false), cs).world
    ensures RunAll(Session(world, [], false), cs).aborted == PlainRunAll(Plain(world, [], false), cs).aborted
  {
    FreshSession(world, false);
    RunsStayRelated(Session(world, [], false), Plain(world, [], false), cs);
  }
}
