/** The inputs on which the type judgements go wrong, one for each exception. */
module TypeTraps {
  import opened Collections
  import opened TypeText
  import opened TypeCatalogue
  import opened DataType
  import opened TypeRoundTrip
  import opened TypeMeaning
  import opened TypeChange
  import opened TypeLossy

  // ------------------------------------------------- all three exceptions occur

  lemma SuffixShares(s: string, suffix: string)
    requires suffix != ""
    ensures HasSuffix(s, suffix) ==> suffix[0] in s
  {
    if HasSuffix(s, suffix) {
      assert s[|s| - |suffix|] == suffix[0];
    }
  }

  /** A bare one-word spelling parses as itself. */
  lemma BareNameParses(name: string, dimensions: nat, types: seq<BuiltinType>)
    requires Plain(name) && WellSpaced(name) && !Grammar(name) && ' ' !in name
    ensures var q := Parsed(name + ArraySuffix(dimensions), types);
            && q.builtin == ResolveType(types, name) && q.rawTypmods == None && q.arrayDimensions == dimensions
            && q.typmod == ClassifyTypmod(q.builtin, name, None)
  {
    RenderedParsesTo(name, None, dimensions, types);
    SuffixShares(name, WITHOUT_TZ);
    SuffixShares(name, WITH_TZ);
    assert Rendered(name, None, dimensions) == name + ArraySuffix(dimensions);
  }

  /** Parsed form of a bare catalogue spelling. */
  lemma BareTypeParses(name: string, dimensions: nat, types: seq<BuiltinType>, e: BuiltinType) returns (p: ParsedDataType)
    requires Plain(name) && WellSpaced(name) && !Grammar(name) && ' ' !in name
    requires SortedByName(types) && e in types && GrammarAlias(name) == e.typname
    ensures p == Parsed(name + ArraySuffix(dimensions), types)
    ensures p.builtin == Some(e) && p.rawTypmods == None && p.arrayDimensions == dimensions
    ensures p.typmod == ClassifyTypmod(Some(e), name, None)
  {
    BareNameParses(name, dimensions, types);
    NamesAreUnique(types, e, ByTypname(types, e.typname).value);
    p := Parsed(name + ArraySuffix(dimensions), types);
  }

  lemma {:induction false} TrapAliases(name: string)
    requires name == "bpchar" || name == "char" || name == "text"
    ensures GrammarAlias(name) == if name == "char" then "bpchar" else name
    ensures !Grammar(name)
  {
  }

  lemma {:induction false} TrapSpellings(name: string)
    requires name == "bpchar" || name == "char" || name == "text"
    ensures Plain(name) && WellSpaced(name) && !Grammar(name) && ' ' !in name
    ensures GrammarAlias(name) == if name == "char" then "bpchar" else name
  {
    TrapAliases(name);
  }

  lemma BareScalarParses(name: string, types: seq<BuiltinType>, e: BuiltinType) returns (p: ParsedDataType)
    requires Plain(name) && WellSpaced(name) && !Grammar(name) && ' ' !in name
    requires SortedByName(types) && e in types && GrammarAlias(name) == e.typname
    ensures p == Parsed(name, types)
    ensures p.builtin == Some(e) && p.rawTypmods == None && p.arrayDimensions == 0
    ensures p.typmod == ClassifyTypmod(Some(e), name, None)
  {
    p := BareTypeParses(name, 0, types, e);
    assert name + ArraySuffix(0) == name;
  }

  lemma BareArrayParses(name: string, types: seq<BuiltinType>, e: BuiltinType) returns (p: ParsedDataType)
    requires Plain(name) && WellSpaced(name) && !Grammar(name) && ' ' !in name
    requires SortedByName(types) && e in types && GrammarAlias(name) == e.typname
    ensures p == Parsed(name + "[]", types)
    ensures p.builtin == Some(e) && p.rawTypmods == None && p.arrayDimensions == 1
  {
    p := BareTypeParses(name, 1, types, e);
    assert ArraySuffix(1) == ArraySuffix(0) + "[]" == "[]";
  }

  lemma BpcharSpellings(p: ParsedDataType, q: ParsedDataType, e: BuiltinType, pgVersion: nat)
    requires p.builtin == q.builtin == Some(e) && e.typname == "bpchar"
    requires p.rawTypmods == q.rawTypmods == None && p.arrayDimensions == q.arrayDimensions == 0
    requires p.typmod == ClassifyTypmod(Some(e), "bpchar", None) && q.typmod == ClassifyTypmod(Some(e), "char", None)
    ensures IsTypeChangeSafe(p, q, pgVersion) && BpcharTrap(p, q)
  {
    assert Identity(p) == Identity(q);
  }

  const BPCHAR := "bpchar"
  const CHAR := "char"
  const TEXT := "text"

  /** `bpchar` to `char` is judged safe, yet a two-character value no longer fits. */
  lemma {:induction false} BpcharTrapOccurs(types: seq<BuiltinType>, e: BuiltinType, pgVersion: nat)
    requires SortedByName(types) && e in types && e.typname == BPCHAR
    ensures var p, q := Parsed(BPCHAR, types), Parsed(CHAR, types);
            IsTypeChangeSafe(p, q, pgVersion) && BpcharTrap(p, q)
  {
    TrapSpellings(BPCHAR);
    TrapSpellings(CHAR);
    var p := BareScalarParses(BPCHAR, types, e);
    var q := BareScalarParses(CHAR, types, e);
    BpcharSpellings(p, q, e, pgVersion);
  }

  /** A text array turned into plain `text` is judged safe, though it is no scalar. */
  lemma {:induction false} ArrayTrapOccurs(types: seq<BuiltinType>, t: BuiltinType, pgVersion: nat)
    requires SortedByName(types) && t in types && t.typname == TEXT && t.category == String
    ensures var p, q := Parsed(TEXT + "[]", types), Parsed(TEXT, types);
            IsTypeChangeSafe(p, q, pgVersion) && IsArray(p) && !IsArray(q)
  {
    TrapSpellings(TEXT);
    var p := BareArrayParses(TEXT, types, t);
    var q := BareScalarParses(TEXT, types, t);
    ArrayToScalar(p, q, t, pgVersion);
  }

  lemma ArrayToScalar(p: ParsedDataType, q: ParsedDataType, t: BuiltinType, pgVersion: nat)
    requires p.builtin == q.builtin == Some(t) && t.typname == TEXT && t.category == String
    ensures IsTypeChangeSafe(p, q, pgVersion)
  {
  }

  /** A `varchar(n)` turned into a one-byte string type is judged safe and not lossy, for every
      n above one, though one byte is all that fits. */
  lemma {:induction false} WidthTrapOccurs(types: seq<BuiltinType>, v: BuiltinType, c: BuiltinType, length: int, pgVersion: nat)
    requires WellFormed(types) && v in types && v.typname == "varchar" && v.category == String && v.fixedBits == None
    requires c in types && c.typname == CHAR && c.category == String && c.fixedBits == Some(8)
    requires 1 < length <= MAX_CHAR_LENGTH
    ensures var p := Parsed(Rendered(v.canonical, Some(IntText(length)), 0), types);
            var q := Parsed(c.canonical, types);
            IsTypeChangeSafe(p, q, pgVersion) && !IsLossyNarrowing(p, q) && WidthTrap(p, q)
  {
    DeclaredLengthParses(types, v, length, 0);
    OneByteParses(types, c);
    var p := Parsed(Rendered(v.canonical, Some(IntText(length)), 0), types);
    LongTextIntoByte(p, Parsed(c.canonical, types), v, c, length, pgVersion);
  }

  lemma {:induction false} OneByteParses(types: seq<BuiltinType>, c: BuiltinType)
    requires WellFormed(types) && c in types && c.typname == CHAR
    ensures var q := Parsed(c.canonical, types);
            q.builtin == Some(c) && q.typmod == NotApplicable && q.rawTypmods == None && q.arrayDimensions == 0
  {
    assert WellFormedEntry(types, c);
    RenderedParsesTo(c.canonical, None, 0, types);
    UnmodifiedIsItsName(c.canonical);
    OneByteTakesNoModifier(c, c.canonical);
  }

  lemma OneByteTakesNoModifier(c: BuiltinType, written: string)
    requires c.typname == CHAR
    ensures ClassifyTypmod(Some(c), written, None) == NotApplicable
  {
  }

  lemma LongTextIntoByte(p: ParsedDataType, q: ParsedDataType, v: BuiltinType, c: BuiltinType, length: int, pgVersion: nat)
    requires p.builtin == Some(v) && v.typname == "varchar" && v.category == String && v.fixedBits == None
    requires q.builtin == Some(c) && c.typname == CHAR && c.category == String && c.fixedBits == Some(8)
    requires 1 < length <= MAX_CHAR_LENGTH && p.typmod == CharacterLength(length) && p.arrayDimensions == 0
    requires q.typmod == NotApplicable && q.rawTypmods == None && q.arrayDimensions == 0
    ensures IsTypeChangeSafe(p, q, pgVersion) && !IsLossyNarrowing(p, q) && WidthTrap(p, q)
  {
  }

  lemma {:induction false} NumericParses(types: seq<BuiltinType>, e: BuiltinType, precision: int, scale: int)
    requires WellFormed(types) && e in types && e.typname == "numeric" && NumericInRange(precision, scale)
    ensures var q := Parsed(Rendered(e.canonical, Some(NumericText(precision, scale)), 0), types);
            && q.builtin == Some(e) && q.arrayDimensions == 0 && q.typmod == NumericParams(precision, Some(scale))
            && q.rawTypmods == Some(NumericText(precision, scale))
  {
    assert WellFormedEntry(types, e);
    NumericTextClassifies(precision, scale);
    RenderedParsesTo(e.canonical, Some(NumericText(precision, scale)), 0, types);
    NumericIsClassified(e, e.canonical, NumericText(precision, scale));
  }

  /** Giving a `numeric(p,s)` more scale at the same precision is not called lossy, though the
      largest numbers no longer fit. */
  lemma {:induction false} IntegerDigitsTrapOccurs(types: seq<BuiltinType>, e: BuiltinType, precision: int, scale: int, more: int)
    requires WellFormed(types) && e in types && e.typname == "numeric"
    requires NumericInRange(precision, scale) && NumericInRange(precision, more) && scale < more
    ensures var p := Parsed(Rendered(e.canonical, Some(NumericText(precision, scale)), 0), types);
            var q := Parsed(Rendered(e.canonical, Some(NumericText(precision, more)), 0), types);
            IntegerDigitsTrap(p, q) && LosesNumber(p, q) && !IsLossyNarrowing(p, q)
  {
    NumericParses(types, e, precision, scale);
    NumericParses(types, e, precision, more);
    var p := Parsed(Rendered(e.canonical, Some(NumericText(precision, scale)), 0), types);
    var q := Parsed(Rendered(e.canonical, Some(NumericText(precision, more)), 0), types);
    DigitsDecideLoss(p, q);
    MoreScaleIsNotLossy(p, q);
  }

  lemma MoreScaleIsNotLossy(p: ParsedDataType, q: ParsedDataType)
    requires IsExactNumeric(p) && IsExactNumeric(q) && p.arrayDimensions == q.arrayDimensions
    requires NumericParamsOf(p).Some? && NumericParamsOf(q).Some?
    requires NumericParamsOf(q).value.0 >= NumericParamsOf(p).value.0 && NumericParamsOf(q).value.1 >= NumericParamsOf(p).value.1
    ensures !IsLossyNarrowing(p, q)
  {
  }

  /** A `varchar(n)` cut to `varchar(m)` is lossy exactly when m is smaller. */
  lemma {:induction false} ShorterVarcharIsLossy(types: seq<BuiltinType>, v: BuiltinType, n: int, m: int)
    requires WellFormed(types) && v in types && v.typname == "varchar" && v.category == String && v.fixedBits == None
    requires 1 <= n <= MAX_CHAR_LENGTH && 1 <= m <= MAX_CHAR_LENGTH
    ensures var p := Parsed(Rendered(v.canonical, Some(IntText(n)), 0), types);
            var q := Parsed(Rendered(v.canonical, Some(IntText(m)), 0), types);
            IsLossyNarrowing(p, q) <==> m < n
  {
    DeclaredLengthParses(types, v, n, 0);
    DeclaredLengthParses(types, v, m, 0);
    ModifierIsKept(types, v, n);
    ModifierIsKept(types, v, m);
    IntTextReadsBack(n);
    IntTextReadsBack(m);
    LimitsDecideLoss(Parsed(Rendered(v.canonical, Some(IntText(n)), 0), types),
                     Parsed(Rendered(v.canonical, Some(IntText(m)), 0), types), v, n, m);
  }

  lemma {:induction false} ModifierIsKept(types: seq<BuiltinType>, v: BuiltinType, n: int)
    requires WellFormed(types) && v in types
    ensures Parsed(Rendered(v.canonical, Some(IntText(n)), 0), types).rawTypmods == Some(IntText(n))
  {
    assert WellFormedEntry(types, v);
    LengthTextClassifies(n);
    RenderedParsesTo(v.canonical, Some(IntText(n)), 0, types);
  }

  lemma LimitsDecideLoss(p: ParsedDataType, q: ParsedDataType, v: BuiltinType, n: int, m: int)
    requires p.builtin == q.builtin == Some(v) && v.typname == "varchar" && v.category == String && v.fixedBits == None
    requires 1 <= n <= MAX_CHAR_LENGTH && 1 <= m <= MAX_CHAR_LENGTH
    requires p.typmod == CharacterLength(n) && q.typmod == CharacterLength(m) && p.arrayDimensions == q.arrayDimensions
    requires p.rawTypmods == q.rawTypmods ==> n == m
    ensures IsLossyNarrowing(p, q) <==> m < n
  {
  }

  // ------------------------------------------------- when a bare character type has length one

  /** The spellings of the character production that denote `bpchar`. */
  const CHARACTER_SPELLINGS := {"char", "character", "nchar", "national char", "national character"}

  /** A bare name of the `bpchar` entry means length one exactly when it is one of the two
      spellings the code lists; every other name is unlimited. */
  lemma LengthOneExactly(types: seq<BuiltinType>, e: BuiltinType, written: string)
    requires ResolveType(types, written) == Some(e) && e.typname == "bpchar" && e.canonical == "character"
    ensures ClassifyTypmod(Some(e), written, None) == if written in {"char", "character"} then CharacterLength(1) else Unbounded
  {
    BareBpchar(e, written);
    BitIsItsOwnName();
  }

  lemma BareBpchar(e: BuiltinType, written: string)
    requires e.typname == "bpchar"
    ensures ClassifyTypmod(Some(e), written, None) == if ImpliesLengthOne(written) then CharacterLength(1) else Unbounded
  {
  }

  lemma BitIsItsOwnName()
    ensures GrammarAlias("bit") == "bit"
  {
  }

  /** The same for whatever was written: a declaration without modifier that denotes `bpchar`. */
  lemma ParsedLengthOneExactly(types: seq<BuiltinType>, e: BuiltinType, raw: string)
    requires e.typname == "bpchar" && e.canonical == "character"
    requires Parsed(raw, types).builtin == Some(e) && Parsed(raw, types).rawTypmods == None
    ensures var name := LookedUp(SplitModifier(StripArrays(Fold(Trim(raw), false)).text)).0;
            Parsed(raw, types).typmod == if name in {"char", "character"} then CharacterLength(1) else Unbounded
  {
    LengthOneExactly(types, e, LookedUp(SplitModifier(StripArrays(Fold(Trim(raw), false)).text)).0);
  }

  lemma SpellingIsPlain(name: string)
    requires name in CHARACTER_SPELLINGS
    ensures Plain(name) && WellSpaced(name)
  {
  }

  lemma SpellingIsAlias(name: string)
    requires name in CHARACTER_SPELLINGS
    ensures GrammarAlias(name) == "bpchar" && !Grammar(name)
  {
  }

  /** All five spellings denote `bpchar`; the documented length one holds for two of them. */
  lemma {:induction false} CharacterSpellings(types: seq<BuiltinType>, e: BuiltinType, name: string)
    requires SortedByName(types) && e in types && e.typname == "bpchar" && e.canonical == "character"
    requires name in CHARACTER_SPELLINGS
    ensures var p := Parsed(name, types);
            && p.builtin == Some(e)
            && (p.typmod == CharacterLength(1) <==> name in {"char", "character"})
            && (name in {"nchar", "national char", "national character"} ==> p.typmod == Unbounded)
  {
    SpellingIsPlain(name);
    SpellingIsAlias(name);
    RenderedParsesTo(name, None, 0, types);
    UnmodifiedIsItsName(name);
    NamesAreUnique(types, e, ByTypname(types, e.typname).value);
    LengthOneExactly(types, e, name);
  }
}
