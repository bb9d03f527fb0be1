/** What written modifiers mean: from the numbers a user declares to what is stored. */
module TypeMeaning {
  import opened Collections
  import opened TypeText
  import opened TypeCatalogue
  import opened DataType
  import opened TypeRoundTrip

  // ------------------------------------------------- numerals

  function DigitChar(d: nat): char
    requires d < 10
  {
    (('0' as int) + d) as char
  }

  function NatText(n: nat): string {
    if n < 10 then [DigitChar(n)] else NatText(n / 10) + [DigitChar(n % 10)]
  }

  function IntText(n: int): string {
    if n < 0 then "-" + NatText(-n) else NatText(n)
  }

  predicate InI32(n: int) {
    -0x8000_0000 <= n < 0x8000_0000
  }

  lemma {:induction false} NatTextReadsBack(n: nat)
    ensures Digits(NatText(n)) == Some(n) && NatText(n) != ""
    ensures forall i :: 0 <= i < |NatText(n)| ==> IsDigit(NatText(n)[i])
  {
    if n >= 10 {
      NatTextReadsBack(n / 10);
      var front := NatText(n / 10);
      assert NatText(n)[..|front|] == front;
    }
  }

  /** A numeral reads back exactly when it fits. */
  lemma {:induction false} IntTextReadsBack(n: int)
    ensures ParseI32(IntText(n)) == if InI32(n) then Some(n) else None
    ensures ParseU32(IntText(n)) == if 0 <= n < 0x1_0000_0000 then Some(n) else None
  {
    if n < 0 {
      NatTextReadsBack(-n);
      var text := IntText(n);
      assert text[1..] == NatText(-n);
      NegativeIsNoNumber(text);
    } else {
      NatTextReadsBack(n);
      assert IsDigit(NatText(n)[0]);
    }
  }

  lemma {:induction false} NegativeIsNoNumber(text: string)
    requires text != "" && !IsDigit(text[0])
    ensures Digits(text).None?
  {
    if |text| > 1 {
      NegativeIsNoNumber(text[..|text| - 1]);
    }
  }

  predicate NumeralChar(c: char) {
    IsDigit(c) || c == '-' || c == ','
  }

  predicate Numerals(s: string) {
    s != "" && forall i :: 0 <= i < |s| ==> NumeralChar(s[i])
  }

  lemma IntTextIsNumeral(n: int)
    ensures Numerals(IntText(n)) && ',' !in IntText(n)
  {
    NatTextReadsBack(if n < 0 then -n else n);
  }

  lemma NumeralsAreStable(s: string)
    requires Numerals(s)
    ensures StableMods(Some(s)) && Trim(s) == s
  {
    assert Inert(s);
    InertIsStable(s, false);
    TightIsTrimmed(s);
  }

  // ------------------------------------------------- numeric(p, s)

  function NumericText(precision: int, scale: int): string {
    IntText(precision) + "," + IntText(scale)
  }

  lemma {:induction false} CommaIsFound(a: string, b: string)
    requires ',' !in a
    ensures FirstIndexOf(a + "," + b, ',') == Some(|a|)
    ensures (a + "," + b)[..|a|] == a && (a + "," + b)[|a| + 1..] == b
  {
    var s := a + "," + b;
    assert s[|a|] == ',';
    assert forall i :: 0 <= i < |a| ==> s[i] == a[i];
  }

  predicate NumericInRange(precision: int, scale: int) {
    1 <= precision <= MAX_NUMERIC_PRECISION && -MAX_NUMERIC_SCALE <= scale <= MAX_NUMERIC_SCALE
  }

  lemma {:induction false} NumericTextClassifies(precision: int, scale: int)
    ensures StableMods(Some(NumericText(precision, scale)))
    ensures ClassifyNumeric(NumericText(precision, scale)) ==
            if NumericInRange(precision, scale) then NumericParams(precision, Some(scale)) else OutOfRange
  {
    var a, b := IntText(precision), IntText(scale);
    IntTextIsNumeral(precision);
    IntTextIsNumeral(scale);
    CommaIsFound(a, b);
    NumeralsAreStable(a);
    NumeralsAreStable(b);
    NumeralsAreStable(a + "," + b);
    IntTextReadsBack(precision);
    IntTextReadsBack(scale);
  }

  /** From declaration to storage: a written `numeric(p,s)` of any dimension is accepted
      exactly in the server's range, and what is stored decodes to p and s. */
  lemma {:induction false} DeclaredNumericIsStored(types: seq<BuiltinType>, e: BuiltinType, precision: int, scale: int, dimensions: nat)
    requires WellFormed(types) && e in types && e.typname == "numeric"
    ensures var q := Parsed(Rendered(e.canonical, Some(NumericText(precision, scale)), dimensions), types);
            && q.builtin == Some(e) && q.arrayDimensions == dimensions
            && (IsValidDeclaration(q) <==> NumericInRange(precision, scale))
            && (AttTypmod(q).Some? <==> NumericInRange(precision, scale))
            && (NumericInRange(precision, scale) ==>
                  DecodePrecision(AttTypmod(q).value) == precision && DecodeScale(AttTypmod(q).value) == scale)
  {
    assert WellFormedEntry(types, e);
    var mods := Some(NumericText(precision, scale));
    NumericTextClassifies(precision, scale);
    RenderedParsesTo(e.canonical, mods, dimensions, types);
    var q := Parsed(Rendered(e.canonical, mods, dimensions), types);
    NumericIsClassified(e, e.canonical, mods.value);
    EncodingRoundTrips(q);
  }

  lemma NumericIsClassified(e: BuiltinType, written: string, raw: string)
    requires e.typname == "numeric"
    ensures ClassifyTypmod(Some(e), written, Some(raw)) == ClassifyNumeric(raw)
  {
  }

  // ------------------------------------------------- varchar(n) and char(n)

  lemma LengthIsClassified(e: BuiltinType, written: string, raw: string)
    requires e.typname == "varchar" || e.typname == "bpchar"
    ensures ClassifyTypmod(Some(e), written, Some(raw)) == ClassifyLength(raw)
  {
  }

  lemma {:induction false} LengthTextClassifies(length: int)
    ensures StableMods(Some(IntText(length)))
    ensures ClassifyLength(IntText(length)) == if 1 <= length <= MAX_CHAR_LENGTH then CharacterLength(length) else OutOfRange
  {
    IntTextIsNumeral(length);
    NumeralsAreStable(IntText(length));
    IntTextReadsBack(length);
  }

  lemma {:induction false} DeclaredLengthParses(types: seq<BuiltinType>, e: BuiltinType, length: int, dimensions: nat)
    requires WellFormed(types) && e in types && (e.typname == "varchar" || e.typname == "bpchar")
    ensures var q := Parsed(Rendered(e.canonical, Some(IntText(length)), dimensions), types);
            && q.builtin == Some(e) && q.arrayDimensions == dimensions
            && q.typmod == if 1 <= length <= MAX_CHAR_LENGTH then CharacterLength(length) else OutOfRange
  {
    assert WellFormedEntry(types, e);
    var mods := Some(IntText(length));
    LengthTextClassifies(length);
    RenderedParsesTo(e.canonical, mods, dimensions, types);
    LengthIsClassified(e, e.canonical, mods.value);
  }

  /** A written character length is accepted exactly in the server's range, and is stored
      with its header. */
  lemma {:induction false} DeclaredLengthIsStored(types: seq<BuiltinType>, e: BuiltinType, length: int, dimensions: nat)
    requires WellFormed(types) && e in types && (e.typname == "varchar" || e.typname == "bpchar")
    ensures var q := Parsed(Rendered(e.canonical, Some(IntText(length)), dimensions), types);
            && q.builtin == Some(e) && q.arrayDimensions == dimensions
            && (IsValidDeclaration(q) <==> 1 <= length <= MAX_CHAR_LENGTH)
            && AttTypmod(q) == if 1 <= length <= MAX_CHAR_LENGTH then Some(length + VARHDRSZ) else None
  {
    DeclaredLengthParses(types, e, length, dimensions);
    LengthIsStored(Parsed(Rendered(e.canonical, Some(IntText(length)), dimensions), types), length);
  }

  lemma LengthIsStored(q: ParsedDataType, length: int)
    requires q.typmod == if 1 <= length <= MAX_CHAR_LENGTH then CharacterLength(length) else OutOfRange
    ensures IsValidDeclaration(q) <==> 1 <= length <= MAX_CHAR_LENGTH
    ensures AttTypmod(q) == if 1 <= length <= MAX_CHAR_LENGTH then Some(length + VARHDRSZ) else None
  {
  }

  // ------------------------------------------------- float(p)

  function FloatName(precision: int): string {
    if 1 <= precision <= 24 then "real" else if 25 <= precision <= 53 then "double precision" else "float"
  }

  const FLOAT := "float"

  lemma {:induction false} FloatIsLookedUp(precision: int, base: string)
    ensures LookedUp(Declared(FLOAT, base, Some(IntText(precision)))) ==
            (FloatName(precision), if 1 <= precision <= 53 then None else Some(IntText(precision)))
  {
    IntTextIsNumeral(precision);
    NumeralsAreStable(IntText(precision));
    IntTextReadsBack(precision);
    FloatHasNoQualifier();
    FloatPrecisionMeaning(precision);
    assert ExpandSerial(FloatName(precision)) == FloatName(precision);
  }

  lemma FloatHasNoQualifier()
    ensures StripPgCatalog(FLOAT) == FLOAT && GoodName(FLOAT) && WellSpaced(FLOAT)
  {
    assert '.' !in FLOAT;
    UnqualifiedStays(FLOAT);
  }

  lemma FloatPrecisionMeaning(precision: int)
    ensures FloatPrecision(IntText(precision)) == if 1 <= precision <= 53 then Some(FloatName(precision)) else None
  {
    IntTextIsNumeral(precision);
    NumeralsAreStable(IntText(precision));
    IntTextReadsBack(precision);
  }

  /** `float(p)` selects its type by precision and keeps no modifier; outside 1 to 53 it stays
      `float` and keeps the modifier. */
  lemma {:induction false} DeclaredFloatSelectsType(types: seq<BuiltinType>, precision: int, dimensions: nat)
    ensures var q := Parsed(Rendered(FLOAT, Some(IntText(precision)), dimensions), types);
            && q.builtin == ResolveType(types, FloatName(precision)) && q.arrayDimensions == dimensions
            && q.rawTypmods == if 1 <= precision <= 53 then None else Some(IntText(precision))
  {
    var mods := Some(IntText(precision));
    FloatHasNoQualifier();
    IntTextIsNumeral(precision);
    NumeralsAreStable(mods.value);
    RenderedPartsReadBack(FLOAT, mods, dimensions);
    FloatIsLookedUp(precision, SplitModifier(Rendered(FLOAT, mods, 0)).base);
  }

  lemma {:induction false} RenderedPartsReadBack(name: string, mods: Option<string>, dimensions: nat)
    requires GoodName(name) && WellSpaced(name) && StableMods(mods)
    ensures var folded := Fold(Trim(Rendered(name, mods, dimensions)), false);
            && StripArrays(folded).dimensions == dimensions
            && SplitModifier(StripArrays(folded).text) == SplitModifier(Rendered(name, mods, 0))
            && SplitModifier(Rendered(name, mods, 0)).text == name
            && SplitModifier(Rendered(name, mods, 0)).mods == mods
  {
    var out := Rendered(name, mods, dimensions);
    RenderedStrips(name, mods, dimensions);
    TightIsTrimmed(out);
    RenderedIsStable(name, mods, dimensions);
    RenderedSplits(name, mods);
  }
}
