/** Whether one index can be attached to another, decided from partial descriptions. */
module IndexAttachment {
  import opened Collections
  import opened IndexDefinitions

  datatype Equivalence = Identical | Different | Unknown

  /** A definite difference outranks an unknown. */
  function And(a: Equivalence, b: Equivalence): Equivalence {
    if a == Different || b == Different then Different
    else if a == Unknown || b == Unknown then Unknown
    else Identical
  }

  function FromEqual(equal: bool): Equivalence {
    if equal then Identical else Different
  }

  function CompareMethods(l: Option<string>, r: Option<string>): Equivalence {
    match (l, r)
    case (Some(a), Some(b)) => FromEqual(a == b)
    case (None, None) => Identical
    case _ => Unknown
  }

  function CompareNulls(l: Option<bool>, r: Option<bool>): Equivalence {
    match (l, r)
    case (Some(a), Some(b)) => FromEqual(a == b)
    case _ => Unknown
  }

  function CompareKinds(l: IndexKeyKind, r: IndexKeyKind): Equivalence {
    match (l, r)
    case (Column(a), Column(b)) => FromEqual(a == b)
    case (Expression(Some(a)), Expression(Some(b))) => FromEqual(a == b)
    case (Expression(_), Expression(_)) => Unknown
    case _ => Different
  }

  function CompareOpclasses(l: KeyOpclass, r: KeyOpclass): Equivalence {
    match (l, r)
    case (Default(Some(a)), Default(Some(b))) => FromEqual(a == b)
    case (Explicit(a), Explicit(b)) => FromEqual(a == b)
    case (Default(Some(a)), Explicit(b)) => FromEqual(a == b)
    case (Explicit(a), Default(Some(b))) => FromEqual(a == b)
    case (Default(_), Default(_)) => Identical
    case _ => Unknown
  }

  function CompareCollations(l: KeyCollation, r: KeyCollation): Equivalence {
    if (l.NotCollatable? || l.Derived?) && (r.NotCollatable? || r.Derived?) then Identical
    else if l.Resolved? && r.Resolved? then FromEqual(l.collation == r.collation)
    else if l.UnresolvedCollation? || r.UnresolvedCollation? then Unknown
    else if l.NotCollatable? || r.NotCollatable? then Different
    else Unknown
  }

  function ComparePredicates(l: IndexPredicate, r: IndexPredicate): Equivalence {
    match (l, r)
    case (NoPredicate, NoPredicate) => Identical
    case (Parsed(a), Parsed(b)) => FromEqual(a == b)
    case (NoPredicate, _) => Different
    case (_, NoPredicate) => Different
    case _ => Unknown
  }

  function CompareKeys(l: IndexKey, r: IndexKey): Equivalence {
    And(And(CompareKinds(l.kind, r.kind), CompareOpclasses(l.opclass, r.opclass)),
        CompareCollations(l.collation, r.collation))
  }

  /** The verdict over the first `n` pairs of two key lists. */
  function CompareKeyLists(l: seq<IndexKey>, r: seq<IndexKey>, n: nat): Equivalence
    requires n <= |l| && n <= |r|
  {
    if n == 0 then Identical else And(CompareKeyLists(l, r, n - 1), CompareKeys(l[n - 1], r[n - 1]))
  }

  /** The facts compared before any key is looked at. */
  function CompareShapes(l: IndexDefinition, r: IndexDefinition): Equivalence {
    And(And(And(And(CompareMethods(l.method_, r.method_), FromEqual(l.unique == r.unique)),
                CompareNulls(l.nullsNotDistinct, r.nullsNotDistinct)),
            FromEqual(|l.keys| == |r.keys| && |l.included| == |r.included|)),
        FromEqual(l.expressionKeys == r.expressionKeys))
  }

  function Verdict(l: IndexDefinition, r: IndexDefinition): Equivalence {
    if l.unestablished || r.unestablished then Unknown
    else if CompareShapes(l, r) == Different then Different
    else
      And(And(And(CompareShapes(l, r), CompareKeyLists(l.keys, r.keys, |l.keys|)),
              CompareKeyLists(l.included, r.included, |l.included|)),
          ComparePredicates(l.predicate_, r.predicate_))
  }

  /** The running verdict, as the comparison folds it. */
  method AttachEquivalence(l: IndexDefinition, r: IndexDefinition) returns (verdict: Equivalence)
    ensures verdict == Verdict(l, r)
  {
    if l.unestablished || r.unestablished {
      return Unknown;
    }
    verdict := CompareMethods(l.method_, r.method_);
    verdict := And(verdict, FromEqual(l.unique == r.unique));
    verdict := And(verdict, CompareNulls(l.nullsNotDistinct, r.nullsNotDistinct));
    verdict := And(verdict, FromEqual(|l.keys| == |r.keys| && |l.included| == |r.included|));
    verdict := And(verdict, FromEqual(l.expressionKeys == r.expressionKeys));
    if verdict == Different {
      return;
    }
    ghost var shapes := verdict;
    for i := 0 to |l.keys|
      invariant verdict == And(shapes, CompareKeyLists(l.keys, r.keys, i))
    {
      verdict := And(verdict, CompareKeys(l.keys[i], r.keys[i]));
    }
    ghost var keyed := verdict;
    for i := 0 to |l.included|
      invariant verdict == And(keyed, CompareKeyLists(l.included, r.included, i))
    {
      verdict := And(verdict, CompareKeys(l.included[i], r.included[i]));
    }
    verdict := And(verdict, ComparePredicates(l.predicate_, r.predicate_));
  }

  lemma {:induction false} KeyListsAreSymmetric(l: seq<IndexKey>, r: seq<IndexKey>, n: nat)
    requires n <= |l| && n <= |r|
    ensures CompareKeyLists(l, r, n) == CompareKeyLists(r, l, n)
  {
    if n > 0 {
      KeyListsAreSymmetric(l, r, n - 1);
    }
  }

  lemma VerdictIsSymmetric(l: IndexDefinition, r: IndexDefinition)
    ensures Verdict(l, r) == Verdict(r, l)
  {
    if CompareShapes(l, r) != Different {
      KeyListsAreSymmetric(l.keys, r.keys, |l.keys|);
      KeyListsAreSymmetric(l.included, r.included, |l.included|);
    }
  }

  // ------------------------------------------------- what a description leaves open

  /** Everything PostgreSQL compares about one key, fully known. A key of a type that is
      not collatable has no collation. */
  datatype KeyFacts = KeyFacts(kind: FactKind, family: ResolvedName, collation: Option<ResolvedName>)
  datatype FactKind = ColumnFact(name: string) | ExpressionFact(ir: ExprIr)

  datatype IndexFacts = IndexFacts(method_: string, unique: bool, nullsNotDistinct: bool, keys: seq<KeyFacts>,
                                   included: seq<KeyFacts>, expressionKeys: nat, predicate_: Option<ExprIr>)

  predicate FillsKind(k: IndexKeyKind, f: FactKind) {
    match k
    case Column(name) => f == ColumnFact(name)
    case Expression(Some(ir)) => f == ExpressionFact(ir)
    case Expression(None) => f.ExpressionFact?
  }

  predicate FillsClass(c: KeyOpclass, family: ResolvedName) {
    match c
    case Default(Some(known)) => family == known
    case Explicit(known) => family == known
    case _ => true
  }

  predicate FillsCollation(c: KeyCollation, collation: Option<ResolvedName>) {
    match c
    case NotCollatable => collation == None
    case Resolved(known) => collation == Some(known)
    case _ => true
  }

  predicate FillsKey(k: IndexKey, f: KeyFacts) {
    FillsKind(k.kind, f.kind) && FillsClass(k.opclass, f.family) && FillsCollation(k.collation, f.collation)
  }

  predicate FillsPredicate(p: IndexPredicate, f: Option<ExprIr>) {
    match p
    case NoPredicate => f == None
    case Parsed(ir) => f == Some(ir)
    case Opaque => f.Some?
  }

  predicate FillsKeys(ks: seq<IndexKey>, fs: seq<KeyFacts>) {
    |ks| == |fs| && forall i :: 0 <= i < |ks| ==> FillsKey(ks[i], fs[i])
  }

  /** `f` is a world in which the description `d` is true. */
  predicate Fills(d: IndexDefinition, f: IndexFacts) {
    d.unestablished ||
    (&& (d.method_.Some? ==> f.method_ == d.method_.value)
     && f.unique == d.unique
     && (d.nullsNotDistinct.Some? ==> f.nullsNotDistinct == d.nullsNotDistinct.value)
     && FillsKeys(d.keys, f.keys) && FillsKeys(d.included, f.included)
     && f.expressionKeys == d.expressionKeys
     && FillsPredicate(d.predicate_, f.predicate_))
  }

  /** Two omitted classes of one key choose the same class, and two collations that come
      from the key's own definition are the same collation. */
  predicate KeysAgree(l: IndexKey, r: IndexKey, f: KeyFacts, g: KeyFacts) {
    && (l.opclass.Default? && r.opclass.Default? && (l.opclass.family.None? || r.opclass.family.None?) ==> f.family == g.family)
    && ((l.collation.NotCollatable? || l.collation.Derived?) && (r.collation.NotCollatable? || r.collation.Derived?) ==>
          f.collation == g.collation)
  }

  predicate KeyListsAgree(l: seq<IndexKey>, r: seq<IndexKey>, fs: seq<KeyFacts>, gs: seq<KeyFacts>) {
    |l| == |r| == |fs| == |gs| ==> forall i :: 0 <= i < |l| ==> KeysAgree(l[i], r[i], fs[i], gs[i])
  }

  /** What partition-linked tables force: the parts neither side wrote down coincide. */
  predicate Agree(l: IndexDefinition, r: IndexDefinition, f: IndexFacts, g: IndexFacts) {
    l.unestablished || r.unestablished ||
    (&& (l.method_.None? && r.method_.None? ==> f.method_ == g.method_)
     && KeyListsAgree(l.keys, r.keys, f.keys, g.keys)
     && KeyListsAgree(l.included, r.included, f.included, g.included))
  }

  /** A pair of worlds the two descriptions leave open. */
  predicate World(l: IndexDefinition, r: IndexDefinition, f: IndexFacts, g: IndexFacts) {
    Fills(l, f) && Fills(r, g) && Agree(l, r, f, g)
  }

  lemma KeyVerdictIsSound(l: IndexKey, r: IndexKey, f: KeyFacts, g: KeyFacts)
    requires FillsKey(l, f) && FillsKey(r, g) && KeysAgree(l, r, f, g)
    ensures CompareKeys(l, r) == Identical ==> f == g
    ensures CompareKeys(l, r) == Different ==> f != g
  {
  }

  lemma {:induction false} KeyListVerdictIsSound(l: seq<IndexKey>, r: seq<IndexKey>, fs: seq<KeyFacts>, gs: seq<KeyFacts>, n: nat)
    requires |l| == |r| && FillsKeys(l, fs) && FillsKeys(r, gs) && KeyListsAgree(l, r, fs, gs) && n <= |l|
    ensures CompareKeyLists(l, r, n) == Identical ==> fs[..n] == gs[..n]
    ensures CompareKeyLists(l, r, n) == Different ==> fs[..n] != gs[..n]
  {
    if n > 0 {
      KeyListVerdictIsSound(l, r, fs, gs, n - 1);
      KeyVerdictIsSound(l[n - 1], r[n - 1], fs[n - 1], gs[n - 1]);
      assert fs[..n] == fs[..n - 1] + [fs[n - 1]] && gs[..n] == gs[..n - 1] + [gs[n - 1]];
      assert fs[..n][..n - 1] == fs[..n - 1] && gs[..n][..n - 1] == gs[..n - 1];
    }
  }

  /** A definite verdict holds in every world the descriptions leave open. */
  lemma VerdictIsSound(l: IndexDefinition, r: IndexDefinition, f: IndexFacts, g: IndexFacts)
    requires World(l, r, f, g)
    ensures Verdict(l, r) == Identical ==> f == g
    ensures Verdict(l, r) == Different ==> f != g
  {
    if !l.unestablished && !r.unestablished && CompareShapes(l, r) != Different {
      KeyListVerdictIsSound(l.keys, r.keys, f.keys, g.keys, |l.keys|);
      KeyListVerdictIsSound(l.included, r.included, f.included, g.included, |l.included|);
      assert f.keys[..|l.keys|] == f.keys && g.keys[..|l.keys|] == g.keys;
      assert f.included[..|l.included|] == f.included && g.included[..|l.included|] == g.included;
    }
  }

  // ------------------------------------------------- an unknown verdict is really open

  /** Facts both keys allow, when nothing tells the keys apart. */
  function SharedKey(l: IndexKey, r: IndexKey): KeyFacts {
    KeyFacts(
      match l.kind {
        case Column(name) => ColumnFact(name)
        case Expression(Some(ir)) => ExpressionFact(ir)
        case Expression(None) =>
          if r.kind.Expression? && r.kind.ir.Some? then ExpressionFact(r.kind.ir.value) else ExpressionFact(Omitted)
      },
      match l.opclass {
        case Default(Some(known)) => known
        case Explicit(known) => known
        case _ => match r.opclass {
          case Default(Some(known)) => known
          case Explicit(known) => known
          case _ => ResolvedName("", "")
        }
      },
      if l.collation.Resolved? then Some(l.collation.collation)
      else if r.collation.Resolved? then Some(r.collation.collation)
      else None)
  }

  lemma SharedKeyFills(l: IndexKey, r: IndexKey)
    requires CompareKeys(l, r) != Different
    ensures FillsKey(l, SharedKey(l, r)) && FillsKey(r, SharedKey(l, r))
  {
  }

  /** An unknown key comparison leaves both keys room to differ. */
  lemma KeysCanDiffer(l: IndexKey, r: IndexKey) returns (f: KeyFacts, g: KeyFacts)
    requires CompareKeys(l, r) == Unknown
    ensures FillsKey(l, f) && FillsKey(r, g) && KeysAgree(l, r, f, g) && f != g
  {
    SharedKeyFills(l, r);
    f, g := SharedKey(l, r), SharedKey(l, r);
    if CompareKinds(l.kind, r.kind) == Unknown {
      var other := if f.kind.ir == Omitted then Literal("") else Omitted;
      if l.kind.ir.None? {
        f := f.(kind := ExpressionFact(other));
      } else {
        g := g.(kind := ExpressionFact(other));
      }
    } else if CompareOpclasses(l.opclass, r.opclass) == Unknown {
      var other := if f.family == ResolvedName("", "") then ResolvedName("", "x") else ResolvedName("", "");
      if l.opclass.UnresolvedClass? || l.opclass == Default(None) {
        f := f.(family := other);
      } else {
        g := g.(family := other);
      }
    } else {
      var other := if f.collation == Some(ResolvedName("", "")) then Some(ResolvedName("", "x")) else Some(ResolvedName("", ""));
      if l.collation.UnresolvedCollation? || l.collation.Derived? {
        f := f.(collation := other);
      } else {
        g := g.(collation := other);
      }
    }
  }

  function SharedKeys(l: seq<IndexKey>, r: seq<IndexKey>): seq<KeyFacts>
    requires |l| == |r|
  {
    seq(|l|, i requires 0 <= i < |l| => SharedKey(l[i], r[i]))
  }

  lemma {:induction false} UndecidedKey(l: seq<IndexKey>, r: seq<IndexKey>, n: nat)
    requires n <= |l| == |r| && CompareKeyLists(l, r, n) != Different
    ensures forall i :: 0 <= i < n ==> CompareKeys(l[i], r[i]) != Different
    ensures CompareKeyLists(l, r, n) == Unknown ==> exists i :: 0 <= i < n && CompareKeys(l[i], r[i]) == Unknown
  {
    if n > 0 {
      UndecidedKey(l, r, n - 1);
    }
  }

  lemma SharedKeysFill(l: seq<IndexKey>, r: seq<IndexKey>)
    requires |l| == |r| && CompareKeyLists(l, r, |l|) != Different
    ensures FillsKeys(l, SharedKeys(l, r)) && FillsKeys(r, SharedKeys(l, r))
    ensures KeyListsAgree(l, r, SharedKeys(l, r), SharedKeys(l, r))
  {
    UndecidedKey(l, r, |l|);
    forall i | 0 <= i < |l| ensures FillsKey(l[i], SharedKeys(l, r)[i]) && FillsKey(r[i], SharedKeys(l, r)[i]) {
      SharedKeyFills(l[i], r[i]);
    }
  }

  lemma KeyListsCanDiffer(l: seq<IndexKey>, r: seq<IndexKey>) returns (fs: seq<KeyFacts>, gs: seq<KeyFacts>)
    requires |l| == |r| && CompareKeyLists(l, r, |l|) == Unknown
    ensures FillsKeys(l, fs) && FillsKeys(r, gs) && KeyListsAgree(l, r, fs, gs) && fs != gs
  {
    UndecidedKey(l, r, |l|);
    SharedKeysFill(l, r);
    var i :| 0 <= i < |l| && CompareKeys(l[i], r[i]) == Unknown;
    var f, g := KeysCanDiffer(l[i], r[i]);
    fs, gs := SharedKeys(l, r)[i := f], SharedKeys(l, r)[i := g];
    assert fs[i] != gs[i];
  }

  function SharedFacts(l: IndexDefinition, r: IndexDefinition): IndexFacts
    requires |l.keys| == |r.keys| && |l.included| == |r.included|
  {
    IndexFacts(
      if l.method_.Some? then l.method_.value else if r.method_.Some? then r.method_.value else "",
      l.unique,
      if l.nullsNotDistinct.Some? then l.nullsNotDistinct.value
      else if r.nullsNotDistinct.Some? then r.nullsNotDistinct.value else false,
      SharedKeys(l.keys, r.keys),
      SharedKeys(l.included, r.included),
      l.expressionKeys,
      match l.predicate_ {
        case NoPredicate => None
        case Parsed(ir) => Some(ir)
        case Opaque => if r.predicate_.Parsed? then Some(r.predicate_.ir) else Some(Omitted)
      })
  }

  lemma SharedFactsFill(l: IndexDefinition, r: IndexDefinition)
    requires !l.unestablished && !r.unestablished && Verdict(l, r) != Different
    ensures |l.keys| == |r.keys| && |l.included| == |r.included|
    ensures World(l, r, SharedFacts(l, r), SharedFacts(l, r))
  {
    SharedKeysFill(l.keys, r.keys);
    SharedKeysFill(l.included, r.included);
  }

  /** Two established descriptions with an unknown verdict differ in some open world. */
  lemma EstablishedCanDiffer(l: IndexDefinition, r: IndexDefinition) returns (f: IndexFacts, g: IndexFacts)
    requires !l.unestablished && !r.unestablished && Verdict(l, r) == Unknown
    ensures World(l, r, f, g) && f != g
  {
    SharedFactsFill(l, r);
    f, g := SharedFacts(l, r), SharedFacts(l, r);
    if CompareMethods(l.method_, r.method_) == Unknown {
      if l.method_.None? {
        f := f.(method_ := r.method_.value + "x");
      } else {
        g := g.(method_ := l.method_.value + "x");
      }
    } else if CompareNulls(l.nullsNotDistinct, r.nullsNotDistinct) == Unknown {
      if l.nullsNotDistinct.None? {
        f := f.(nullsNotDistinct := !f.nullsNotDistinct);
      } else {
        g := g.(nullsNotDistinct := !g.nullsNotDistinct);
      }
    } else if CompareKeyLists(l.keys, r.keys, |l.keys|) == Unknown {
      var fs, gs := KeyListsCanDiffer(l.keys, r.keys);
      f, g := f.(keys := fs), g.(keys := gs);
    } else if CompareKeyLists(l.included, r.included, |l.included|) == Unknown {
      var fs, gs := KeyListsCanDiffer(l.included, r.included);
      f, g := f.(included := fs), g.(included := gs);
    } else {
      var other := if f.predicate_ == Some(Omitted) then Some(Literal("")) else Some(Omitted);
      if l.predicate_.Opaque? {
        f := f.(predicate_ := other);
      } else {
        g := g.(predicate_ := other);
      }
    }
  }

  /** An unestablished description leaves every pair of worlds open on its side. */
  lemma UnestablishedIsOpen(l: IndexDefinition, r: IndexDefinition)
    requires l.unestablished || r.unestablished
    ensures exists f, g :: World(l, r, f, g) && f == g
    ensures exists f, g :: World(l, r, f, g) && f != g
  {
    var known := if l.unestablished then r else l;
    var f := OwnFacts(known, known);
    SomeWorldIsOpen(known, known);
    assert World(l, r, f, f);
    var g := f.(method_ := f.method_ + "x");
    if l.unestablished {
      assert World(l, r, g, f);
    } else {
      assert World(l, r, f, g);
    }
  }

  /** Facts of one key that respect what its partner forces. */
  function OwnKey(k: IndexKey, partner: IndexKey): KeyFacts {
    KeyFacts(
      match k.kind {
        case Column(name) => ColumnFact(name)
        case Expression(ir) => ExpressionFact(if ir.Some? then ir.value else Omitted)
      },
      match k.opclass {
        case Default(Some(known)) => known
        case Explicit(known) => known
        case _ => if partner.opclass.Default? && partner.opclass.family.Some? then partner.opclass.family.value
                  else ResolvedName("", "")
      },
      if k.collation.Resolved? then Some(k.collation.collation) else None)
  }

  function OwnKeys(ks: seq<IndexKey>, partners: seq<IndexKey>): (fs: seq<KeyFacts>)
    ensures FillsKeys(ks, fs)
  {
    seq(|ks|, i requires 0 <= i < |ks| => OwnKey(ks[i], if |ks| == |partners| then partners[i] else ks[i]))
  }

  function OwnFacts(d: IndexDefinition, partner: IndexDefinition): IndexFacts {
    IndexFacts(if d.method_.Some? then d.method_.value else "", d.unique,
               if d.nullsNotDistinct.Some? then d.nullsNotDistinct.value else false,
               OwnKeys(d.keys, partner.keys), OwnKeys(d.included, partner.included), d.expressionKeys,
               match d.predicate_ {
                 case NoPredicate => None
                 case Parsed(ir) => Some(ir)
                 case Opaque => Some(Omitted)
               })
  }

  /** Two descriptions always leave at least one pair of worlds open. */
  lemma SomeWorldIsOpen(l: IndexDefinition, r: IndexDefinition)
    ensures World(l, r, OwnFacts(l, r), OwnFacts(r, l))
  {
  }

  /** The verdict is exact: identical when no open world tells the indexes apart, different
      when every open world does, unknown precisely when open worlds disagree. */
  lemma VerdictIsExact(l: IndexDefinition, r: IndexDefinition)
    ensures Verdict(l, r) == Identical <==> forall f, g :: World(l, r, f, g) ==> f == g
    ensures Verdict(l, r) == Different <==> forall f, g :: World(l, r, f, g) ==> f != g
  {
    forall f, g | World(l, r, f, g)
      ensures Verdict(l, r) == Identical ==> f == g
      ensures Verdict(l, r) == Different ==> f != g
    {
      VerdictIsSound(l, r, f, g);
    }
    if l.unestablished || r.unestablished {
      UnestablishedIsOpen(l, r);
    } else if Verdict(l, r) == Unknown {
      SharedFactsFill(l, r);
      assert World(l, r, SharedFacts(l, r), SharedFacts(l, r));
      var f, g := EstablishedCanDiffer(l, r);
    } else if Verdict(l, r) == Identical {
      SharedFactsFill(l, r);
    } else {
      SomeWorldIsOpen(l, r);
    }
  }
}
