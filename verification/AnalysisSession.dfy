/** The transaction state as the analyzer mutates it. */
module AnalysisSessions {
  import opened Collections
  import opened Identifiers
  import opened GraphModel
  import opened GraphRename
  import opened Transactions

  class AnalysisSession<V> {
    var edges: seq<Edge>
    var objects: map<Key, V>
    var transactions: seq<Frame<V>>
    var aborted: bool

    function Value(): Session<V>
      reads this
    {
      Session(World(edges, objects), transactions, aborted)
    }

    constructor (initialEdges: seq<Edge>, initialObjects: map<Key, V>)
      ensures Value() == Session(World(initialEdges, initialObjects), [], false)
    {
      edges, objects, transactions, aborted := initialEdges, initialObjects, [], false;
    }

    /** Record an undo entry in the innermost frame, if a transaction is open. */
    method Snapshot(change: StateChange<V>)
      modifies this`transactions
      ensures transactions == if old(transactions) == [] then []
                              else
                                var n := |old(transactions)| - 1;
                                old(transactions)[n := old(transactions)[n].(undoLog := old(transactions)[n].undoLog + [change])]
    {
      if transactions != [] {
        var n := |transactions| - 1;
        transactions := transactions[n := transactions[n].(undoLog := transactions[n].undoLog + [change])];
      }
    }

    /** Pop and undo, newest entry first. */
    method RollbackUndoLog(undoLog: seq<StateChange<V>>)
      modifies this`edges, this`objects
      ensures World(edges, objects) == UndoAll(old(World(edges, objects)), undoLog)
    {
      var left := undoLog;
      while left != []
        invariant UndoAll(World(edges, objects), left) == UndoAll(old(World(edges, objects)), undoLog)
        decreases |left|
      {
        var change := left[|left| - 1];
        left := left[..|left| - 1];
        match change {
          case ObjectSnapshot(key, previous) =>
            objects := Put(objects, key, previous);
          case GraphLengthMarker(len) =>
            if len < |edges| {
              edges := edges[..len];
            }
          case GraphSnapshot(previous) =>
            edges := Dedup(previous);
          case NamespaceSnapshot(previousObjects, previousEdges) =>
            objects, edges := previousObjects, Dedup(previousEdges);
        }
      }
    }

    /** Pop and roll back every frame from `keep` on. */
    method RollbackFrames(keep: nat)
      requires keep <= |transactions|
      modifies this
      ensures World(edges, objects) == StartOf(old(World(edges, objects)), old(transactions), keep)
      ensures transactions == old(transactions)[..keep] && aborted == old(aborted)
    {
      ghost var w, frames := World(edges, objects), transactions;
      assert transactions[..|transactions|] == transactions;
      while |transactions| > keep
        invariant keep <= |transactions| <= |frames| && transactions == frames[..|transactions|] && aborted == old(aborted)
        invariant World(edges, objects) == StartOf(w, frames, |transactions|)
      {
        var n := |transactions| - 1;
        var frame := transactions[n];
        transactions := transactions[..n];
        RollbackUndoLog(frame.undoLog);
      }
    }

    method ApplyBegin()
      modifies this
      ensures Value() == Step(old(Value()), Begin)
    {
      if !aborted && transactions == [] {
        transactions := [Frame(Root, [])];
      }
    }

    method ApplyCommit(chain: bool)
      modifies this
      ensures Value() == Step(old(Value()), Commit(chain))
    {
      if chain && transactions == [] {
        return;
      }
      if aborted {
        RollbackFrames(0);
      }
      transactions := if chain then [Frame(Root, [])] else [];
      aborted := false;
    }

    method ApplyRollback(chain: bool)
      modifies this
      ensures Value() == Step(old(Value()), Rollback(chain))
    {
      if chain && transactions == [] {
        return;
      }
      RollbackFrames(0);
      transactions := if chain then [Frame(Root, [])] else [];
      aborted := false;
    }

    method ApplySavepoint(name: string)
      modifies this
      ensures Value() == Step(old(Value()), SetSavepoint(name))
    {
      if !aborted && transactions != [] {
        transactions := transactions + [Frame(Savepoint(name), [])];
      }
    }

    /** Innermost savepoint of that name, scanning from the end. */
    method FindSavepoint(name: string) returns (p: Option<nat>)
      ensures p == LastNamed(Kinds(transactions), name)
    {
      var i := |transactions|;
      ghost var kinds := Kinds(transactions);
      assert kinds[..i] == kinds;
      while i > 0
        invariant 0 <= i <= |transactions|
        invariant LastNamed(kinds[..i], name) == LastNamed(kinds, name)
      {
        assert kinds[..i][..i - 1] == kinds[..i - 1];
        if transactions[i - 1].kind == Savepoint(name) {
          return Some(i - 1);
        }
        i := i - 1;
      }
      p := None;
    }

    method ApplyRollbackTo(name: string)
      modifies this
      ensures Value() == Step(old(Value()), RollbackTo(name))
    {
      var found := FindSavepoint(name);
      if found.None? {
        aborted := aborted || transactions != [];
        return;
      }
      var p := found.value;
      RollbackFrames(p + 1);
      var undoLog := transactions[p].undoLog;
      transactions := transactions[..p] + [transactions[p].(undoLog := [])];
      RollbackUndoLog(undoLog);
      aborted := false;
    }

    method ApplyRelease(name: string)
      modifies this
      ensures Value() == Step(old(Value()), Release(name))
    {
      if aborted {
        return;
      }
      var found := FindSavepoint(name);
      if found.None? || found.value == 0 {
        aborted := transactions != [];
        return;
      }
      var p := found.value;
      ghost var frames := transactions;
      var released := transactions[p..];
      var outer := transactions[p - 1];
      for i := 0 to |released|
        invariant transactions == frames
        invariant outer.kind == frames[p - 1].kind
        invariant frames[p - 1].undoLog + LogsFrom(frames, p) == outer.undoLog + LogsFrom(frames, p + i)
      {
        var log := released[i].undoLog;
        assert outer.undoLog + (log + LogsFrom(frames, p + i + 1)) == (outer.undoLog + log) + LogsFrom(frames, p + i + 1);
        outer := outer.(undoLog := outer.undoLog + log);
      }
      assert outer.undoLog + [] == outer.undoLog;
      transactions := transactions[..p - 1] + [outer];
    }

    /** Record first, then change. */
    method ApplyOperation(op: Operation<V>)
      modifies this
      ensures Value() == Step(old(Value()), Mutate(op))
    {
      if aborted {
        return;
      }
      Snapshot(Recorded(World(edges, objects), op));
      match op {
        case WriteObject(key, value) =>
          objects := Put(objects, key, value);
        case AddEdges(added) =>
          for i := 0 to |added|
            invariant objects == old(objects) && aborted == old(aborted) && transactions == Step(old(Value()), Mutate(op)).frames
            invariant AddAll(old(edges), added) == AddAll(edges, added[i..])
          {
            edges := Added(edges, added[i]);
          }
        case RewriteEdges(rewritten) =>
          edges := Dedup(rewritten);
        case RewriteNamespace(moved, movedEdges) =>
          objects, edges := moved, Dedup(movedEdges);
      }
    }

    /** The statement checkpoint inside a transaction: depth and length of the undo log. */
    method RestoreCheckpoint(depth: nat, undoLen: nat) returns (ok: bool)
      modifies this
      ensures ok <==> |old(transactions)| == depth && depth > 0 && undoLen <= |old(transactions)[depth - 1].undoLog|
      ensures ok ==> Value() == Restored(old(Value()), undoLen)
      ensures !ok ==> Value() == old(Value())
    {
      if |transactions| != depth || depth == 0 || |transactions[depth - 1].undoLog| < undoLen {
        return false;
      }
      var n := depth - 1;
      var statementUndo := transactions[n].undoLog[undoLen..];
      transactions := transactions[n := transactions[n].(undoLog := transactions[n].undoLog[..undoLen])];
      RollbackUndoLog(statementUndo);
      return true;
    }
  }

  function Restored<V>(s: Session<V>, undoLen: nat): Session<V>
    requires s.frames != [] && undoLen <= |s.frames[|s.frames| - 1].undoLog|
  {
    var n := |s.frames| - 1;
    var log := s.frames[n].undoLog;
    Session(UndoAll(s.world, log[undoLen..]), s.frames[n := s.frames[n].(undoLog := log[..undoLen])], s.aborted)
  }

  /** Mutations only lengthen the innermost log, and undoing the new part takes them back. */
  lemma {:induction false} StatementIsTakenBack<V>(s: Session<V>, ops: seq<Operation<V>>) returns (extra: seq<StateChange<V>>)
    requires s.frames != [] && !s.aborted && Distinct(s.world.edges)
    ensures var n := |s.frames| - 1; var t := RunAll(s, Mutations(ops));
            && t.frames == s.frames[n := s.frames[n].(undoLog := s.frames[n].undoLog + extra)]
            && !t.aborted
            && UndoAll(t.world, extra) == s.world
    decreases |ops|
  {
    var n := |s.frames| - 1;
    if ops == [] {
      extra := [];
      assert s.frames[n].undoLog + [] == s.frames[n].undoLog;
      assert s.frames[n := s.frames[n]] == s.frames;
    } else {
      var first := Recorded(s.world, ops[0]);
      var s1 := Step(s, Mutate(ops[0]));
      UndoTakesBack(s.world, ops[0]);
      assert Mutations(ops)[1..] == Mutations(ops[1..]);
      var rest := StatementIsTakenBack(s1, ops[1..]);
      extra := [first] + rest;
      var t := RunAll(s, Mutations(ops));
      assert t == RunAll(s1, Mutations(ops[1..]));
      OneUndoneLast(t.world, first, rest);
      LogsJoin(s.frames, n, first, rest);
    }
  }

  lemma OneUndoneLast<V>(w: World<V>, first: StateChange<V>, rest: seq<StateChange<V>>)
    ensures UndoAll(w, [first] + rest) == Undo(UndoAll(w, rest), first)
  {
    UndoAllConcat(w, [first], rest);
    var v := UndoAll(w, rest);
    assert UndoAll(v, [first]) == UndoAll(Undo(v, first), []);
  }

  lemma LogsJoin<V>(frames: seq<Frame<V>>, n: nat, first: StateChange<V>, rest: seq<StateChange<V>>)
    requires n < |frames|
    ensures var longer := frames[n := frames[n].(undoLog := frames[n].undoLog + [first])];
            longer[n := longer[n].(undoLog := longer[n].undoLog + rest)] ==
            frames[n := frames[n].(undoLog := frames[n].undoLog + ([first] + rest))]
  {
    assert frames[n].undoLog + ([first] + rest) == (frames[n].undoLog + [first]) + rest;
  }

  function Mutations<V>(ops: seq<Operation<V>>): seq<Command<V>> {
    seq(|ops|, i requires 0 <= i < |ops| => Mutate(ops[i]))
  }

  /** A failed statement is atomic: whatever mutations it ran, restoring its checkpoint
      gives back the whole session it started from. */
  lemma CheckpointRestoresStatement<V>(s: Session<V>, ops: seq<Operation<V>>)
    requires s.frames != [] && !s.aborted && Distinct(s.world.edges)
    ensures var n := |s.frames| - 1; var t := RunAll(s, Mutations(ops));
            && |t.frames| == n + 1 && |s.frames[n].undoLog| <= |t.frames[n].undoLog|
            && Restored(t, |s.frames[n].undoLog|) == s
  {
    var n := |s.frames| - 1;
    var log := s.frames[n].undoLog;
    var extra := StatementIsTakenBack(s, ops);
    assert (log + extra)[..|log|] == log && (log + extra)[|log|..] == extra;
    var t := RunAll(s, Mutations(ops));
    assert t.frames[n].undoLog == log + extra;
    assert t.frames[n := t.frames[n].(undoLog := log)] == s.frames;
  }
}
