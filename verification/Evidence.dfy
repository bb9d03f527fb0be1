/** Evidence for conservative analysis, and the certainty a finding draws from it. */
module Evidence {
  import opened Collections
  import opened TextOrder

  datatype EvidenceCode =
    | BaselineUnavailable | BaselineStale | CatalogCoverageIncomplete | UnsupportedStatement | UnsupportedSemantics
    | UnresolvedReference | UnknownObjectState | TransactionStateUnknown | UnmodeledState

  /** Whether uncertainty affects one transition or every later statement. */
  datatype EvidenceScope = StatementScope | ChainScope

  datatype EvidenceLocation = EvidenceLocation(file: string, statementIndex: nat)

  datatype EvidenceRecord = EvidenceRecord(code: EvidenceCode, scope: EvidenceScope, summary: string,
                                           location: Option<EvidenceLocation>)

  // ------------------------------------------------- the log

  function CodeRank(c: EvidenceCode): nat {
    match c
    case BaselineUnavailable => 0
    case BaselineStale => 1
    case CatalogCoverageIncomplete => 2
    case UnsupportedStatement => 3
    case UnsupportedSemantics => 4
    case UnresolvedReference => 5
    case UnknownObjectState => 6
    case TransactionStateUnknown => 7
    case UnmodeledState => 8
  }

  function ScopeRank(s: EvidenceScope): nat {
    if s.StatementScope? then 0 else 1
  }

  predicate LocationBefore(a: Option<EvidenceLocation>, b: Option<EvidenceLocation>) {
    b.Some? && (a.None? || Before(a.value.file, b.value.file) ||
                (a.value.file == b.value.file && a.value.statementIndex < b.value.statementIndex))
  }

  /** Field by field, in declaration order. */
  predicate RecordBefore(a: EvidenceRecord, b: EvidenceRecord) {
    || CodeRank(a.code) < CodeRank(b.code)
    || (a.code == b.code &&
        (|| ScopeRank(a.scope) < ScopeRank(b.scope)
         || (a.scope == b.scope &&
             (|| Before(a.summary, b.summary)
              || (a.summary == b.summary && LocationBefore(a.location, b.location))))))
  }

  lemma RanksAreIdentities(a: EvidenceCode, b: EvidenceCode)
    ensures CodeRank(a) == CodeRank(b) <==> a == b
  {
  }

  lemma LocationsAreOrdered(a: Option<EvidenceLocation>, b: Option<EvidenceLocation>, c: Option<EvidenceLocation>)
    ensures !LocationBefore(a, a)
    ensures a == b || LocationBefore(a, b) || LocationBefore(b, a)
    ensures LocationBefore(a, b) && LocationBefore(b, c) ==> LocationBefore(a, c)
  {
    if a.Some? {
      BeforeIsStrict(a.value.file);
      if b.Some? {
        BeforeIsTotal(a.value.file, b.value.file);
        if c.Some? && Before(a.value.file, b.value.file) && Before(b.value.file, c.value.file) {
          BeforeIsTransitive(a.value.file, b.value.file, c.value.file);
        }
      }
    }
  }

  lemma RecordsAreOrdered(a: EvidenceRecord, b: EvidenceRecord, c: EvidenceRecord)
    ensures !RecordBefore(a, a)
    ensures a == b || RecordBefore(a, b) || RecordBefore(b, a)
    ensures RecordBefore(a, b) && RecordBefore(b, c) ==> RecordBefore(a, c)
  {
    BeforeIsStrict(a.summary);
    BeforeIsTotal(a.summary, b.summary);
    LocationsAreOrdered(a.location, b.location, c.location);
    RanksAreIdentities(a.code, b.code);
    RanksAreIdentities(b.code, c.code);
    if Before(a.summary, b.summary) && Before(b.summary, c.summary) {
      BeforeIsTransitive(a.summary, b.summary, c.summary);
    }
  }

  ghost predicate Ordered(s: seq<EvidenceRecord>) {
    forall i, j :: 0 <= i < j < |s| ==> RecordBefore(s[i], s[j])
  }

  /** Ordered and deduplicated, evidence carried by the analysis. */
  class EvidenceLog {
    var records: seq<EvidenceRecord>

    constructor ()
      ensures records == []
    {
      records := [];
    }

    /** Append unless present, then restore the order. Whether the record was new. */
    method Insert(record: EvidenceRecord) returns (isNew: bool)
      requires Ordered(records)
      modifies this
      ensures Ordered(records)
      ensures Elements(records) == old(Elements(records)) + {record}
      ensures isNew <==> record !in old(records)
      ensures !isNew ==> records == old(records)
    {
      if record in records {
        return false;
      }
      var i := |records|;
      while i > 0 && RecordBefore(record, records[i - 1])
        invariant 0 <= i <= |records|
        invariant forall k :: i <= k < |records| ==> RecordBefore(record, records[k])
      {
        i := i - 1;
      }
      InsertionKeepsOrder(records, i, record);
      records := records[..i] + [record] + records[i..];
      return true;
    }
  }

  lemma InsertionKeepsOrder(s: seq<EvidenceRecord>, i: nat, r: EvidenceRecord)
    requires Ordered(s) && i <= |s| && r !in s
    requires forall k :: i <= k < |s| ==> RecordBefore(r, s[k])
    requires i > 0 ==> !RecordBefore(r, s[i - 1])
    ensures Ordered(s[..i] + [r] + s[i..])
    ensures Elements(s[..i] + [r] + s[i..]) == Elements(s) + {r}
  {
    var t := s[..i] + [r] + s[i..];
    forall k | 0 <= k < i ensures RecordBefore(s[k], r) {
      RecordsAreOrdered(s[i - 1], r, r);
      if k < i - 1 {
        RecordsAreOrdered(s[k], s[i - 1], r);
      }
    }
    assert s == s[..i] + s[i..];
  }

  /** The log is canonical: it depends on which records were inserted, never on the order
      or repetition of their insertion. */
  lemma {:induction false} LogIsCanonical(a: seq<EvidenceRecord>, b: seq<EvidenceRecord>)
    requires Ordered(a) && Ordered(b) && Elements(a) == Elements(b)
    ensures a == b
    decreases |a|
  {
    if a == [] {
      assert forall i :: 0 <= i < |b| ==> b[i] in Elements(b);
    } else {
      assert a[0] in Elements(a) && a[0] in b;
      assert b[0] in Elements(b) && b[0] in a;
      var i :| 0 <= i < |b| && b[i] == a[0];
      var j :| 0 <= j < |a| && a[j] == b[0];
      if i > 0 && j > 0 {
        RecordsAreOrdered(a[0], b[0], a[0]);
      }
      assert a[0] == b[0];
      TailsAgree(a, b);
      LogIsCanonical(a[1..], b[1..]);
      assert a == [a[0]] + a[1..] && b == [b[0]] + b[1..];
    }
  }

  lemma TailsAgree(a: seq<EvidenceRecord>, b: seq<EvidenceRecord>)
    requires Ordered(a) && Ordered(b) && Elements(a) == Elements(b) && a != [] && b != [] && a[0] == b[0]
    ensures Elements(a[1..]) == Elements(b[1..])
  {
    forall x ensures x in a[1..] <==> x in b[1..] {
      RecordsAreOrdered(a[0], a[0], a[0]);
      assert a == [a[0]] + a[1..] && b == [b[0]] + b[1..];
      assert x in Elements(a) <==> x in Elements(b);
    }
  }

  // ------------------------------------------------- certainty

  datatype Certainty = Exact | Assumed | Tainted

  function Rank(c: Certainty): nat {
    match c case Tainted => 0 case Assumed => 1 case Exact => 2
  }

  /** Position of a name among the files, if listed. */
  function FilePosition(order: seq<string>, name: string): (r: Option<nat>)
    ensures r.Some? ==> r.value < |order| && order[r.value] == name && forall k :: 0 <= k < r.value ==> order[k] != name
    ensures r.None? ==> name !in order
  {
    if order == [] then None
    else if order[0] == name then Some(0)
    else match FilePosition(order[1..], name)
         case None => None
         case Some(i) => Some(i + 1)
  }

  datatype Position = Position(file: nat, statement: nat)

  predicate AtOrAfter(a: Position, b: Position) {
    a.file > b.file || (a.file == b.file && a.statement >= b.statement)
  }

  function RecordPosition(r: EvidenceRecord, order: seq<string>): Option<Position> {
    if r.location.None? then None
    else match FilePosition(order, r.location.value.file)
         case None => None
         case Some(i) => Some(Position(i, r.location.value.statementIndex))
  }

  /** Chain evidence taints later statements only, statement evidence its own only, and
      anything that cannot be placed taints. */
  predicate Taints(r: EvidenceRecord, order: seq<string>, here: Option<Position>) {
    var at := RecordPosition(r, order);
    if at.None? || here.None? then true
    else match r.scope
         case ChainScope => !AtOrAfter(at.value, here.value)
         case StatementScope => at == here
  }

  predicate AnyTaints(evidence: set<EvidenceRecord>, order: seq<string>, here: Option<Position>) {
    exists r :: r in evidence && Taints(r, order, here)
  }

  function CertaintyOf(evidence: set<EvidenceRecord>, order: seq<string>, here: Option<Position>, asserted: bool): Certainty {
    if AnyTaints(evidence, order, here) then Tainted else if asserted then Assumed else Exact
  }

  /** Position by position: a record that cannot be placed always counts; one whose file is first
      listed at `i` counts against later statements only, or against its own only. */
  ghost predicate CountsAgainst(r: EvidenceRecord, order: seq<string>, file: nat, statement: nat) {
    r.location.None? ||
    (var l := r.location.value;
     || l.file !in order
     || exists i :: 0 <= i < |order| && order[i] == l.file && l.file !in order[..i] &&
                    match r.scope {
                      case ChainScope => i < file || (i == file && l.statementIndex < statement)
                      case StatementScope => i == file && l.statementIndex == statement
                    })
  }

  lemma FirstListedIsUnique(order: seq<string>, name: string, i: nat)
    requires i < |order| && order[i] == name && name !in order[..i]
    ensures FilePosition(order, name) == Some(i)
  {
    var p := FilePosition(order, name);
    assert order[i] in order;
    assert forall k :: 0 <= k < i ==> order[k] in order[..i];
  }

  lemma TaintMeaning(r: EvidenceRecord, order: seq<string>, file: nat, statement: nat)
    ensures Taints(r, order, Some(Position(file, statement))) <==> CountsAgainst(r, order, file, statement)
    ensures Taints(r, order, None)
  {
    if r.location.Some? && r.location.value.file in order {
      var name := r.location.value.file;
      var p := FilePosition(order, name).value;
      assert name !in order[..p];
      forall i | 0 <= i < |order| && order[i] == name && name !in order[..i] ensures i == p {
        FirstListedIsUnique(order, name, i);
      }
    }
  }

  /** Tainted exactly when some record counts against the finding, or the finding has no place
      and there is any record at all; otherwise a version that was only asserted decides. */
  lemma CertaintyMeaning(evidence: set<EvidenceRecord>, order: seq<string>, file: nat, statement: Option<nat>, asserted: bool)
    ensures var c := CertaintyOf(evidence, order, if statement.Some? then Some(Position(file, statement.value)) else None, asserted);
            var counts := exists r :: r in evidence && (statement.Some? ==> CountsAgainst(r, order, file, statement.value));
            && (c == Tainted <==> counts)
            && (c == Assumed <==> !counts && asserted)
            && (c == Exact <==> !counts && !asserted)
  {
    var here := if statement.Some? then Some(Position(file, statement.value)) else None;
    forall r ensures Taints(r, order, here) <==> (statement.Some? ==> CountsAgainst(r, order, file, statement.value)) {
      TaintMeaning(r, order, file, if statement.Some? then statement.value else 0);
    }
  }

  method CertaintyForStatement(evidence: seq<EvidenceRecord>, order: seq<string>, fileIndex: nat,
                               statementIndex: Option<nat>, asserted: bool) returns (c: Certainty)
    ensures c == CertaintyOf(Elements(evidence), order,
                             if statementIndex.Some? then Some(Position(fileIndex, statementIndex.value)) else None, asserted)
    ensures c == Tainted <==>
            exists r :: r in Elements(evidence) && (statementIndex.Some? ==> CountsAgainst(r, order, fileIndex, statementIndex.value))
    ensures c != Tainted ==> c == if asserted then Assumed else Exact
  {
    CertaintyMeaning(Elements(evidence), order, fileIndex, statementIndex, asserted);
    var here := if statementIndex.Some? then Some(Position(fileIndex, statementIndex.value)) else None;
    var unattributed := false;
    for i := 0 to |evidence|
      invariant unattributed <==> AnyTaints(Elements(evidence[..i]), order, here)
    {
      var record := evidence[i];
      assert evidence[..i + 1] == evidence[..i] + [record];
      assert Elements(evidence[..i + 1]) == Elements(evidence[..i]) + {record};
      assert record in Elements(evidence);
      var at := RecordPosition(record, order);
      match record.scope {
        case ChainScope =>
          if at.None? || here.None? || !AtOrAfter(at.value, here.value) {
            assert Taints(record, order, here);
            return Tainted;
          }
        case StatementScope =>
          if at.None? || here.None? {
            assert Taints(record, order, here);
            unattributed := true;
          } else if at == here {
            assert Taints(record, order, here);
            return Tainted;
          }
      }
    }
    assert evidence[..|evidence|] == evidence;
    c := if unattributed then Tainted else if asserted then Assumed else Exact;
  }

  /** More evidence never raises certainty. */
  lemma EvidenceNeverRaisesCertainty(less: set<EvidenceRecord>, more: set<EvidenceRecord>, order: seq<string>,
                                     here: Option<Position>, asserted: bool)
    requires less <= more
    ensures Rank(CertaintyOf(more, order, here, asserted)) <= Rank(CertaintyOf(less, order, here, asserted))
  {
  }

  predicate LocatedIn(r: EvidenceRecord, file: string) {
    r.location.Some? && r.location.value.file == file
  }

  /** No later file bears the name of this file or of an earlier one. */
  predicate NoLaterNamesake(order: seq<string>, file: nat)
    requires file < |order|
  {
    forall j :: file < j < |order| ==> order[j] !in order[..file + 1]
  }

  /** A record whose file is first listed later leaves a placed finding alone. */
  lemma LaterRecordIsHarmless(r: EvidenceRecord, order: seq<string>, later: nat, here: Position)
    requires here.file < later < |order| && order[later] !in order[..here.file + 1] && LocatedIn(r, order[later])
    ensures !Taints(r, order, Some(here))
  {
    var p := FilePosition(order, order[later]);
    assert forall k :: 0 <= k <= here.file ==> order[k] in order[..here.file + 1];
  }

  /** A record of a later file that is listed no later than the finding's own. */
  lemma NamesakeCanTaint(order: seq<string>, later: nat, here: Position) returns (r: EvidenceRecord)
    requires here.file < later < |order| && order[later] in order[..here.file + 1]
    ensures LocatedIn(r, order[later]) && Taints(r, order, Some(here))
  {
    var at := FilePosition(order, order[later]).value;
    var i :| 0 <= i < here.file + 1 && order[..here.file + 1][i] == order[later];
    assert at <= i <= here.file;
    r := EvidenceRecord(UnsupportedStatement, if at < here.file then ChainScope else StatementScope, "",
                        Some(EvidenceLocation(order[later], here.statement)));
  }

  /** Records of later files leave every finding of a file alone exactly when none of those
      files bears a name already seen. */
  lemma LaterRecordsAreHarmlessExactly(order: seq<string>, here: Position)
    requires here.file < |order|
    ensures (forall r, j :: here.file < j < |order| && LocatedIn(r, order[j]) ==> !Taints(r, order, Some(here))) <==>
            NoLaterNamesake(order, here.file)
  {
    if NoLaterNamesake(order, here.file) {
      forall r, j | here.file < j < |order| && LocatedIn(r, order[j]) ensures !Taints(r, order, Some(here)) {
        LaterRecordIsHarmless(r, order, j, here);
      }
    } else {
      var j :| here.file < j < |order| && order[j] in order[..here.file + 1];
      var r := NamesakeCanTaint(order, j, here);
    }
  }

  /** When file names repeat, a later file's record is placed at the earlier file and can
      taint a finding that was already exact. */
  lemma RepeatedFileNameTaints()
    ensures var order := ["a.sql", "b.sql", "a.sql"];
            var r := EvidenceRecord(UnsupportedStatement, ChainScope, "", Some(EvidenceLocation("a.sql", 1)));
            && CertaintyOf({}, order, Some(Position(1, 1)), false) == Exact
            && LocatedIn(r, order[2])
            && CertaintyOf({r}, order, Some(Position(1, 1)), false) == Tainted
  {
    var order := ["a.sql", "b.sql", "a.sql"];
    var r := EvidenceRecord(UnsupportedStatement, ChainScope, "", Some(EvidenceLocation("a.sql", 1)));
    assert FilePosition(order, "a.sql") == Some(0);
    assert Taints(r, order, Some(Position(1, 1)));
  }
}
