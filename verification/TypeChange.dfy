/** The "no rewrite" and "lossy" judgements on a column type change, against the values a
    declaration admits. */
module TypeChange {
  import opened Collections
  import opened TypeText
  import opened TypeCatalogue
  import opened DataType
  import opened TypeRoundTrip

  predicate IsTypeChangeSafe(p: ParsedDataType, q: ParsedDataType, pgVersion: nat) {
    || (Identity(p) == Identity(q) && p.rawTypmods == q.rawTypmods)
    || (&& IsTextLike(p) && IsTextLike(q) && !IsNamed(p, "bpchar") && !IsNamed(q, "bpchar")
        && (|| IsNamed(q, "text") || q.rawTypmods.None?
            || (CharacterLimit(p).Some? && CharacterLimit(q).Some? && CharacterLimit(p).value <= CharacterLimit(q).value)))
    || (&& pgVersion >= 120_000 && IsExactNumeric(p) && IsExactNumeric(q)
        && (var old_, new_ := NumericParamsOf(p), NumericParamsOf(q);
            new_.None? || (old_.Some? && new_.value.0 >= old_.value.0 && new_.value.1 == old_.value.1)))
  }

  predicate IsLossyNarrowing(p: ParsedDataType, q: ParsedDataType) {
    if p.builtin.Some? && q.builtin.Some? && CanonicalName(p) == CanonicalName(q) && p.rawTypmods == q.rawTypmods &&
       p.arrayDimensions == q.arrayDimensions
    then false
    else if p.arrayDimensions != q.arrayDimensions then true
    else if IsExactNumeric(p) && IsExactNumeric(q) then
      match (NumericParamsOf(p), NumericParamsOf(q)) {
        case (_, None) => false
        case (None, Some(_)) => true
        case (Some(old_), Some(new_)) => new_.0 < old_.0 || new_.1 < old_.1
      }
    else if FixedBits(p).Some? && FixedBits(q).Some? then FixedBits(q).value < FixedBits(p).value
    else if IsTextLike(p) && IsTextLike(q) then
      match (CharacterLimit(p), CharacterLimit(q)) {
        case (Some(old_), Some(new_)) => new_ < old_
        case (None, Some(_)) => true
        case (_, None) => false
      }
    else IsTextLike(p) && CharacterLimit(p).Some?
  }

  function FixedBits(p: ParsedDataType): Option<int> {
    if p.builtin.Some? then p.builtin.value.fixedBits else None
  }

  // ------------------------------------------------- values

  /** A text of some length, or the number `k` shifted right by `scale` decimal digits. */
  datatype Scalar = Text(length: nat) | Number(k: int, scale: int)
  datatype Value = One(scalar: Scalar) | Many(scalars: seq<Scalar>)

  function Pow10(n: nat): nat {
    if n == 0 then 1 else 10 * Pow10(n - 1)
  }

  lemma {:induction false} Pow10Grows(a: nat, b: nat)
    requires a <= b
    ensures Pow10(a) <= Pow10(b)
    decreases b
  {
    if a < b {
      Pow10Grows(a, b - 1);
    }
  }

  predicate AdmitsScalar(p: ParsedDataType, v: Scalar) {
    match v
    case Text(length) =>
      IsTextLike(p) && (CharacterLimit(p).Some? ==> length <= CharacterLimit(p).value) &&
      (FixedBits(p).Some? ==> length <= FixedBits(p).value / 8)
    case Number(k, scale) =>
      IsExactNumeric(p) &&
      (NumericParamsOf(p).Some? ==>
         scale == NumericParamsOf(p).value.1 &&
         -(Pow10(p.typmod.precision) as int) < k < Pow10(p.typmod.precision) as int)
  }

  predicate IsArray(p: ParsedDataType) {
    p.arrayDimensions > 0
  }

  /** Arrays of one element type are one type, however many dimensions were written. */
  predicate Admits(p: ParsedDataType, v: Value) {
    match v
    case One(s) => !IsArray(p) && AdmitsScalar(p, s)
    case Many(ss) => IsArray(p) && forall i :: 0 <= i < |ss| ==> AdmitsScalar(p, ss[i])
  }

  /** What the catalogue says about the families concerned. */
  predicate KnownFamily(e: BuiltinType) {
    && (e.category == String ==> e.typname != "bit" && e.typname != "varbit" && e.typname != "numeric")
    && (e.category == String ==> !TypmodKindOf(e.typname).SecondsTypmod? && !TypmodKindOf(e.typname).IntervalTypmod?)
    && (e.typname == "bpchar" || e.typname == "varchar" || e.typname == "numeric" ==> e.fixedBits.None?)
    && (e.fixedBits.Some? ==> e.fixedBits.value > 0 && e.fixedBits.value % 8 == 0)
  }

  ghost predicate KnownFamilies(types: seq<BuiltinType>) {
    WellFormed(types) && forall e :: e in types ==> KnownFamily(e)
  }

  /** Such catalogues exist, with a text type of fixed width among their entries. */
  lemma SomeCatalogueIsKnown()
    ensures KnownFamilies(SAMPLE)
  {
    SomeCatalogueIsWellFormed();
    forall e | e in SAMPLE ensures KnownFamily(e) {
      SampleIsKnown(e);
    }
  }

  lemma SampleIsKnown(e: BuiltinType)
    requires e == CHARACTER || e == ONE_BYTE || e == NUMERIC || e == VARYING
    ensures KnownFamily(e)
  {
  }

  /** A text or numeric declaration as parsing produces it. */
  ghost predicate Comes(p: ParsedDataType, types: seq<BuiltinType>) {
    && p.builtin.Some? && p.builtin.value in types
    && (IsTextLike(p) || IsExactNumeric(p))
    && IsValidDeclaration(p)
    && exists written :: ResolveType(types, written) == p.builtin && p.typmod == ClassifyTypmod(p.builtin, written, p.rawTypmods)
  }

  lemma ParsedComes(raw: string, types: seq<BuiltinType>)
    requires var p := Parsed(raw, types); p.builtin.Some? && (IsTextLike(p) || IsExactNumeric(p)) && IsValidDeclaration(p)
    ensures Comes(Parsed(raw, types), types)
  {
    var written := LookedUp(SplitModifier(StripArrays(Fold(Trim(raw), false)).text)).0;
    assert ResolveType(types, written) == Parsed(raw, types).builtin;
  }

  /** The one spelling trap: an unlimited `bpchar` counts as the same type as `char`. */
  predicate BpcharTrap(p: ParsedDataType, q: ParsedDataType) {
    IsNamed(p, "bpchar") && p.typmod == Unbounded && CharacterLimit(q).Some?
  }

  /** The width trap: a text type of fixed width counts as unlimited, because it takes no
      modifier. One such type is the catalog's own `"char"` where it is a string type. */
  predicate WidthTrap(p: ParsedDataType, q: ParsedDataType) {
    && IsTextLike(p) && FixedBits(q).Some?
    && (CharacterLimit(p).Some? ==> CharacterLimit(p).value > FixedBits(q).value / 8)
    && (FixedBits(p).Some? ==> FixedBits(p).value / 8 > FixedBits(q).value / 8)
  }

  /** One identity means one built-in, both array or both scalar. */
  lemma IdentityDecides(p: ParsedDataType, q: ParsedDataType, types: seq<BuiltinType>)
    requires KnownFamilies(types) && Comes(p, types) && Comes(q, types)
    ensures Identity(p) == Identity(q) <==> p.builtin == q.builtin && IsArray(p) == IsArray(q)
    ensures CanonicalName(p) == CanonicalName(q) <==> p.builtin == q.builtin
  {
    var e, f := p.builtin.value, q.builtin.value;
    assert WellFormedEntry(types, e) && WellFormedEntry(types, f);
    GoodNameHasNoBrackets(e.canonical);
    GoodNameHasNoBrackets(f.canonical);
    if Identity(p) == Identity(q) {
      LastCharDecides(e.canonical, f.canonical, IsArray(p), IsArray(q));
    }
  }

  lemma LastCharDecides(a: string, b: string, x: bool, y: bool)
    requires a != "" && b != "" && ']' !in a && ']' !in b
    requires a + (if x then "[]" else "") == b + (if y then "[]" else "")
    ensures a == b && x == y
  {
    var s, t := a + (if x then "[]" else ""), b + (if y then "[]" else "");
    assert x ==> s[|s| - 1] == ']';
    assert y ==> t[|t| - 1] == ']';
    assert !x ==> s == a && s[|s| - 1] in a;
    assert !y ==> t == b && t[|t| - 1] in b;
    assert a == s[..|a|] && b == t[..|b|];
  }

  lemma SpellingMattersForLengthOneOnly(b: BuiltinType, w1: string, w2: string, raw: Option<string>)
    requires b.typname != "bit"
    ensures var t1, t2 := ClassifyTypmod(Some(b), w1, raw), ClassifyTypmod(Some(b), w2, raw);
            t1 == t2 || (b.typname == "bpchar" && raw.None? && IsText1(t1) && IsText1(t2))
  {
  }

  /** Within one built-in, the same written modifier limits the same way, the trap aside. */
  lemma SameModifierSameLimit(p: ParsedDataType, q: ParsedDataType, types: seq<BuiltinType>)
    requires KnownFamilies(types) && Comes(p, types) && Comes(q, types)
    requires p.builtin == q.builtin && p.rawTypmods == q.rawTypmods
    ensures p.typmod == q.typmod || (IsNamed(p, "bpchar") && p.rawTypmods.None? && IsText1(p.typmod) && IsText1(q.typmod))
  {
    var w1 :| ResolveType(types, w1) == p.builtin && p.typmod == ClassifyTypmod(p.builtin, w1, p.rawTypmods);
    var w2 :| ResolveType(types, w2) == q.builtin && q.typmod == ClassifyTypmod(q.builtin, w2, q.rawTypmods);
    SpellingMattersForLengthOneOnly(p.builtin.value, w1, w2, p.rawTypmods);
  }

  predicate IsText1(t: TypeTypmod) {
    t == Unbounded || t == CharacterLength(1)
  }

  /** An unmodified text type other than `character` has no limit; `text` never has one. */
  lemma {:induction false} UnmodifiedTextIsUnlimited(q: ParsedDataType, types: seq<BuiltinType>)
    requires KnownFamilies(types) && Comes(q, types) && IsTextLike(q) && !IsNamed(q, "bpchar")
    requires q.rawTypmods.None? || IsNamed(q, "text")
    ensures CharacterLimit(q).None?
  {
    var written :| ResolveType(types, written) == q.builtin && q.typmod == ClassifyTypmod(q.builtin, written, q.rawTypmods);
    LengthNeedsModifier(q.builtin.value, written, q.rawTypmods);
  }

  lemma LengthNeedsModifier(b: BuiltinType, written: string, raw: Option<string>)
    requires b.typname != "bit" && b.typname != "bpchar" && (raw.None? || b.typname == "text")
    ensures !ClassifyTypmod(Some(b), written, raw).CharacterLength?
  {
    if b.typname == "text" {
      assert TypmodKindOf(b.typname) == NoTypmod;
    }
  }

  /** A safe change keeps the scalar values, the trap aside. */
  lemma {:induction false} SafeChangeKeepsScalars(p: ParsedDataType, q: ParsedDataType, types: seq<BuiltinType>, pgVersion: nat, v: Scalar)
    requires KnownFamilies(types) && Comes(p, types) && Comes(q, types)
    requires IsTypeChangeSafe(p, q, pgVersion) && !BpcharTrap(p, q) && !WidthTrap(p, q) && AdmitsScalar(p, v)
    ensures AdmitsScalar(q, v)
  {
    assert IsTextLike(p) ==> p.builtin.value.typname != "numeric";
    if Identity(p) == Identity(q) && p.rawTypmods == q.rawTypmods {
      IdentityDecides(p, q, types);
      SameModifierSameLimit(p, q, types);
    } else if IsTextLike(p) {
      assert IsTextLike(q);
      if IsNamed(q, "text") || q.rawTypmods.None? {
        UnmodifiedTextIsUnlimited(q, types);
      }
    } else {
      if NumericParamsOf(q).Some? {
        Pow10Grows(p.typmod.precision, q.typmod.precision);
      }
    }
  }

  lemma SafeChangeKeepsFamily(p: ParsedDataType, q: ParsedDataType, types: seq<BuiltinType>, pgVersion: nat)
    requires KnownFamilies(types) && Comes(p, types) && Comes(q, types) && IsTypeChangeSafe(p, q, pgVersion)
    ensures IsTextLike(p) == IsTextLike(q) && IsExactNumeric(p) == IsExactNumeric(q) && IsTextLike(p) != IsExactNumeric(p)
  {
    assert IsTextLike(p) ==> p.builtin.value.typname != "numeric";
    assert IsTextLike(q) ==> q.builtin.value.typname != "numeric";
    if Identity(p) == Identity(q) {
      IdentityDecides(p, q, types);
    }
  }

  /** Every declaration admits something, and more than one character unless limited. */
  lemma SomeValueIsAdmitted(p: ParsedDataType, types: seq<BuiltinType>) returns (s: Scalar)
    requires KnownFamilies(types) && Comes(p, types)
    ensures AdmitsScalar(p, s)
  {
    if IsTextLike(p) {
      s := Text(0);
    } else {
      s := Number(0, if NumericParamsOf(p).Some? then NumericParamsOf(p).value.1 else 0);
      if NumericParamsOf(p).Some? {
        Pow10Grows(0, p.typmod.precision);
      }
    }
  }

  lemma ScalarsDecideValues(p: ParsedDataType, q: ParsedDataType, v: Value)
    requires IsArray(p) == IsArray(q) && Admits(p, v)
    requires forall s :: AdmitsScalar(p, s) ==> AdmitsScalar(q, s)
    ensures Admits(q, v)
  {
  }

  lemma SafeChangeKeepsValues(p: ParsedDataType, q: ParsedDataType, types: seq<BuiltinType>, pgVersion: nat)
    requires KnownFamilies(types) && Comes(p, types) && Comes(q, types) && IsTypeChangeSafe(p, q, pgVersion)
    requires IsArray(p) == IsArray(q) && !BpcharTrap(p, q) && !WidthTrap(p, q)
    ensures forall v :: Admits(p, v) ==> Admits(q, v)
  {
    forall s | AdmitsScalar(p, s) ensures AdmitsScalar(q, s) {
      SafeChangeKeepsScalars(p, q, types, pgVersion, s);
    }
    forall v | Admits(p, v) ensures Admits(q, v) {
      ScalarsDecideValues(p, q, v);
    }
  }

  /** Wraps a scalar the new declaration refuses into a value it refuses. */
  lemma RefusedScalar(p: ParsedDataType, q: ParsedDataType, s: Scalar)
    requires AdmitsScalar(p, s) && (IsArray(p) != IsArray(q) || !AdmitsScalar(q, s))
    ensures exists v :: Admits(p, v) && !Admits(q, v)
  {
    if IsArray(p) {
      assert [s][0] == s;
      assert Admits(p, Many([s])) && !Admits(q, Many([s]));
    } else {
      assert Admits(p, One(s)) && !Admits(q, One(s));
    }
  }

  lemma {:induction false} TrapRefusesLongerText(p: ParsedDataType, q: ParsedDataType, types: seq<BuiltinType>, pgVersion: nat)
    requires KnownFamilies(types) && Comes(p, types) && Comes(q, types) && IsTypeChangeSafe(p, q, pgVersion)
    requires BpcharTrap(p, q)
    ensures exists v :: Admits(p, v) && !Admits(q, v)
  {
    RefusedScalar(p, q, Text(CharacterLimit(q).value + 1));
  }

  /** A change judged safe keeps every admitted value exactly when it stays array or stays
      scalar and falls into neither the `bpchar` spelling trap nor the width trap. */
  lemma SafeChangeIsExact(p: ParsedDataType, q: ParsedDataType, types: seq<BuiltinType>, pgVersion: nat)
    requires KnownFamilies(types) && Comes(p, types) && Comes(q, types) && IsTypeChangeSafe(p, q, pgVersion)
    ensures (forall v :: Admits(p, v) ==> Admits(q, v)) <==>
            IsArray(p) == IsArray(q) && !BpcharTrap(p, q) && !WidthTrap(p, q)
  {
    if BpcharTrap(p, q) {
      TrapRefusesLongerText(p, q, types, pgVersion);
    } else if WidthTrap(p, q) {
      RefusedScalar(p, q, Text(FixedBits(q).value / 8 + 1));
    } else if IsArray(p) != IsArray(q) {
      var s := SomeValueIsAdmitted(p, types);
      RefusedScalar(p, q, s);
    } else {
      SafeChangeKeepsValues(p, q, types, pgVersion);
    }
  }

  predicate NarrowsWidth(p: ParsedDataType, q: ParsedDataType) {
    FixedBits(p).Some? && FixedBits(q).Some? && FixedBits(q).value < FixedBits(p).value && !IsExactNumeric(p)
  }

  /** A change judged safe is called lossy exactly when the number of array dimensions changes
      or one fixed width gives way to a smaller one. */
  lemma SafeChangeIsLossyOnlyByDimension(p: ParsedDataType, q: ParsedDataType, types: seq<BuiltinType>, pgVersion: nat)
    requires KnownFamilies(types) && Comes(p, types) && Comes(q, types) && IsTypeChangeSafe(p, q, pgVersion)
    ensures IsLossyNarrowing(p, q) <==> p.arrayDimensions != q.arrayDimensions || NarrowsWidth(p, q)
  {
    SafeChangeKeepsFamily(p, q, types, pgVersion);
    IdentityDecides(p, q, types);
    if p.arrayDimensions == q.arrayDimensions && !(Identity(p) == Identity(q) && p.rawTypmods == q.rawTypmods) {
      if IsTextLike(p) {
        if IsNamed(q, "text") || q.rawTypmods.None? {
          UnmodifiedTextIsUnlimited(q, types);
        }
      }
    }
  }

  /** The same, for any two written declarations. */
  lemma WrittenChangeIsExact(oldType: string, newType: string, types: seq<BuiltinType>, pgVersion: nat)
    requires KnownFamilies(types)
    requires var p := Parsed(oldType, types); p.builtin.Some? && (IsTextLike(p) || IsExactNumeric(p)) && IsValidDeclaration(p)
    requires var q := Parsed(newType, types); q.builtin.Some? && (IsTextLike(q) || IsExactNumeric(q)) && IsValidDeclaration(q)
    requires IsTypeChangeSafe(Parsed(oldType, types), Parsed(newType, types), pgVersion)
    ensures var p, q := Parsed(oldType, types), Parsed(newType, types);
            && ((forall v :: Admits(p, v) ==> Admits(q, v)) <==>
                IsArray(p) == IsArray(q) && !BpcharTrap(p, q) && !WidthTrap(p, q))
            && (IsLossyNarrowing(p, q) <==> p.arrayDimensions != q.arrayDimensions || NarrowsWidth(p, q))
  {
    ParsedComes(oldType, types);
    ParsedComes(newType, types);
    SafeChangeIsExact(Parsed(oldType, types), Parsed(newType, types), types, pgVersion);
    SafeChangeIsLossyOnlyByDimension(Parsed(oldType, types), Parsed(newType, types), types, pgVersion);
  }
}
