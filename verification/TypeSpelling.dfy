/** How a declaration may be written: case, white space, qualifiers, serial names and aliases. */
module TypeSpelling {
  import opened Collections
  import opened TypeText
  import opened TypeCatalogue
  import opened DataType
  import opened TypeRoundTrip
  import opened TypeMeaning

  // ------------------------------------------------- case

  function Quotes(s: string): nat {
    if s == "" then 0 else Quotes(s[1..]) + (if s[0] == '"' then 1 else 0)
  }

  /** Inside quotes means behind an odd number of them. */
  lemma {:induction false} QuotedIsOdd(s: string, quoted: bool)
    ensures InQuotes(s, quoted) <==> (Quotes(s) % 2 == 1) != quoted
  {
    if s != "" {
      QuotedIsOdd(s[1..], Toggled(s[0], quoted));
    }
  }

  /** Folding goes character by character: capitals outside quotes become small, all else stays. */
  lemma {:induction false} FoldMeaning(s: string, i: nat)
    requires i < |s|
    ensures |Fold(s, false)| == |s|
    ensures Fold(s, false)[i] ==
            if 'A' <= s[i] <= 'Z' && Quotes(s[..i]) % 2 == 0 then (s[i] as int + 32) as char else s[i]
  {
    var a, b := s[..i], s[i..];
    assert s == a + b;
    FoldConcat(a, b, false);
    FoldConcat(b, "", InQuotes(a, false));
    QuotedIsOdd(a, false);
    assert Fold(s, false)[i] == Fold(b, InQuotes(a, false))[0] == FoldedChar(s[i], InQuotes(a, false));
  }

  // ------------------------------------------------- white space

  predicate Blank(s: string) {
    forall i :: 0 <= i < |s| ==> s[i] == ' ' || s[i] == '\t' || s[i] == '\n' || s[i] == '\r' || s[i] == '\U{0B}' || s[i] == '\U{0C}'
  }

  lemma {:induction false} TrimStartSkips(a: string, s: string)
    requires Blank(a)
    ensures TrimStart(a + s) == TrimStart(s)
  {
    if a == "" {
      assert a + s == s;
    } else {
      assert (a + s)[0] == a[0] && (a + s)[1..] == a[1..] + s;
      TrimStartSkips(a[1..], s);
    }
  }

  lemma {:induction false} TrimEndSkips(s: string, b: string)
    requires Blank(b)
    ensures TrimEnd(s + b) == TrimEnd(s)
  {
    if b == "" {
      assert s + b == s;
    } else {
      var t := s + b;
      assert t[|t| - 1] == b[|b| - 1] && t[..|t| - 1] == s + b[..|b| - 1];
      TrimEndSkips(s, b[..|b| - 1]);
    }
  }

  lemma {:induction false} TrimStartOfSum(s: string, b: string)
    ensures TrimStart(s) != "" ==> TrimStart(s + b) == TrimStart(s) + b
    ensures TrimStart(s) == "" && Blank(b) ==> TrimStart(s + b) == ""
  {
    if s == "" {
      assert s + b == b;
      if Blank(b) {
        TrimStartSkips(b, "");
        assert b + "" == b;
      }
    } else if IsSpace(s[0]) {
      assert (s + b)[0] == s[0] && (s + b)[1..] == s[1..] + b;
      TrimStartOfSum(s[1..], b);
    } else {
      assert (s + b)[0] == s[0];
    }
  }

  /** White space around a declaration makes no difference. */
  lemma SpaceIsIgnored(a: string, raw: string, b: string, types: seq<BuiltinType>)
    requires Blank(a) && Blank(b)
    ensures Parsed(a + raw + b, types) == Parsed(raw, types)
  {
    assert a + raw + b == a + (raw + b);
    TrimStartSkips(a, raw + b);
    TrimStartOfSum(raw, b);
    if TrimStart(raw) != "" {
      TrimEndSkips(TrimStart(raw), b);
    }
    assert Trim(a + raw + b) == Trim(raw);
  }

  // ------------------------------------------------- serial names

  function SerialInteger(name: string): string {
    if name in {"serial", "serial4"} then "int4" else if name in {"bigserial", "serial8"} then "int8" else "int2"
  }

  const SERIALS := {"serial", "serial4", "bigserial", "serial8", "smallserial", "serial2"}

  lemma SerialSpelling(name: string)
    requires name in SERIALS
    ensures Plain(name) && WellSpaced(name) && '.' !in name && name != "float"
  {
  }

  lemma SerialIsInteger(name: string)
    requires name in SERIALS
    ensures GrammarAlias(ExpandSerial(name)) == SerialInteger(name)
  {
  }

  /** Each serial name declares the integer type of its size. */
  lemma {:induction false} SerialDeclaresInteger(types: seq<BuiltinType>, e: BuiltinType, name: string)
    requires SortedByName(types) && e in types && name in SERIALS && e.typname == SerialInteger(name)
    ensures Parsed(name, types).builtin == Some(e) && Parsed(name, types).rawTypmods == None
  {
    SerialSpelling(name);
    SerialIsInteger(name);
    UnqualifiedStays(name);
    RenderedPartsReadBack(name, None, 0);
    UnmodifiedIsItsName(name);
    NamesAreUnique(types, e, ByTypname(types, e.typname).value);
  }

  // ------------------------------------------------- the system catalog's qualifier

  /** A qualifier that folding, stripping and splitting leave alone and the lookup drops. */
  ghost predicate Droppable(prefix: string, name: string) {
    && prefix != "" && !IsSpace(prefix[0]) && '(' !in prefix && ']' !in prefix && prefix[|prefix| - 1] == '.'
    && Fold(prefix, false) == prefix && !InQuotes(prefix, false)
    && StripPgCatalog(prefix + name) == name
  }

  lemma {:induction false} QualifiedStrips(prefix: string, name: string, mods: Option<string>, dimensions: nat)
    requires Droppable(prefix, name) && GoodName(name) && WellSpaced(name) && StableMods(mods)
    ensures var t := prefix + Rendered(name, mods, dimensions);
            && Trim(t) == t && Fold(t, false) == t
            && StripArrays(t) == Stripped(prefix + Rendered(name, mods, 0), dimensions)
  {
    var body, out := Rendered(name, mods, 0), Rendered(name, mods, dimensions);
    BodyShape(name, mods);
    RenderedIsStable(name, mods, dimensions);
    SuffixIsLast(name, mods, dimensions);
    SuffixedIsTight(body, dimensions);
    FoldConcat(prefix, out, false);
    PrefixedIsTight(prefix, out);
    TightIsTrimmed(prefix + out);
    PrefixedIsTight(prefix, body);
    PrefixedIsNoArray(prefix, body);
    StripRemovesSuffix(prefix + body, dimensions);
    SumsRegroup(prefix, body, ArraySuffix(dimensions));
  }

  lemma PrefixedIsTight(prefix: string, s: string)
    requires prefix != "" && !IsSpace(prefix[0]) && s != "" && Tight(s)
    ensures prefix + s != "" && Tight(prefix + s)
  {
    var t := prefix + s;
    assert t[0] == prefix[0] && t[|t| - 1] == s[|s| - 1];
  }

  lemma PrefixedIsNoArray(prefix: string, s: string)
    requires prefix != "" && prefix[|prefix| - 1] == '.' && s != "" && !EndsWithArray(s)
    ensures !EndsWithArray(prefix + s)
  {
    var t := prefix + s;
    assert t[|t| - 1] == s[|s| - 1];
    assert |s| == 1 ==> t[|t| - 2] == '.';
    assert |s| > 1 ==> t[|t| - 2] == s[|s| - 2];
  }

  lemma SumsRegroup(a: string, b: string, c: string)
    ensures a + (b + c) == (a + b) + c
  {
  }

  lemma {:induction false} SuffixIsLast(name: string, mods: Option<string>, dimensions: nat)
    ensures Rendered(name, mods, dimensions) == Rendered(name, mods, 0) + ArraySuffix(dimensions)
  {
    var (base, tz) := SplitTimeZone(name);
    assert ArraySuffix(0) == "";
    var front := base + (if mods.Some? then "(" + mods.value + ")" else "") + tz;
    assert Rendered(name, mods, 0) == front + "" == front;
  }

  lemma {:induction false} QualifiedSplits(prefix: string, name: string, mods: Option<string>)
    requires Droppable(prefix, name) && GoodName(name) && WellSpaced(name) && StableMods(mods)
    ensures SplitModifier(prefix + Rendered(name, mods, 0)).text == prefix + name
    ensures SplitModifier(prefix + Rendered(name, mods, 0)).mods == mods
  {
    GoodNameHasNoBrackets(name);
    if mods.None? {
      UnmodifiedIsItsName(name);
      PlainTextHasNoModifier(prefix + name);
    } else {
      QualifiedModifierSplits(prefix, name, mods.value);
    }
  }

  lemma {:induction false} QualifiedModifierSplits(prefix: string, name: string, m: string)
    requires Droppable(prefix, name) && GoodName(name) && WellSpaced(name) && Tight(m)
    ensures SplitModifier(prefix + Rendered(name, Some(m), 0)).text == prefix + name
    ensures SplitModifier(prefix + Rendered(name, Some(m), 0)).mods == Some(m)
  {
    BaseShape(name);
    var (base, tz) := SplitTimeZone(name);
    GoodNameHasNoBrackets(base);
    var longer := prefix + base;
    PrefixedIsTight(prefix, base);
    TightIsTrimmed(longer);
    TightIsTrimmed(m);
    RenderedWithModifier(name, m);
    PartsRegroup(prefix, base, m, tz);
    SumsRegroup(prefix, base, tz);
    if tz != "" {
      TimeZoneShape(tz);
    }
    PartsRejoin(longer, m, tz);
  }

  lemma PartsRegroup(prefix: string, base: string, m: string, tz: string)
    ensures prefix + (base + "(" + m + ")" + tz) == (prefix + base) + "(" + m + ")" + tz
  {
  }

  const PG_CATALOG := "pg_catalog."
  const QUOTED_PG_CATALOG := "\"pg_catalog\"."

  predicate IsQualifier(prefix: string) {
    prefix == PG_CATALOG || prefix == QUOTED_PG_CATALOG
  }

  /** The system catalog's qualifier, quoted or not, makes no difference. */
  lemma {:induction false} QualifiedParsesAlike(prefix: string, name: string, mods: Option<string>, dimensions: nat, types: seq<BuiltinType>)
    requires IsQualifier(prefix) && GoodName(name) && WellSpaced(name) && !Grammar(name) && StableMods(mods)
    ensures var q := Parsed(prefix + Rendered(name, mods, dimensions), types);
            var p := Parsed(Rendered(name, mods, dimensions), types);
            q.builtin == p.builtin && q.rawTypmods == p.rawTypmods && q.arrayDimensions == p.arrayDimensions && q.typmod == p.typmod
  {
    QualifierIsDroppable(prefix, name);
    RenderedParsesTo(name, mods, dimensions, types);
    QualifiedStrips(prefix, name, mods, dimensions);
    QualifiedSplits(prefix, name, mods);
  }

  lemma {:induction false} QualifierIsDroppable(prefix: string, name: string)
    requires IsQualifier(prefix)
    ensures Droppable(prefix, name)
  {
    QualifierText(prefix);
    QualifierIsStripped(prefix, name);
    if prefix == PG_CATALOG {
      PlainQualifierIsInert(prefix);
      InertIsStable(prefix, false);
    } else {
      QuotedQualifierIsStable(prefix);
    }
  }

  lemma {:induction false} QualifierText(prefix: string)
    requires IsQualifier(prefix)
    ensures prefix != "" && !IsSpace(prefix[0]) && '(' !in prefix && ']' !in prefix && prefix[|prefix| - 1] == '.'
  {
  }

  lemma {:induction false} PlainQualifierIsInert(prefix: string)
    requires prefix == PG_CATALOG
    ensures Inert(prefix)
  {
  }

  lemma {:induction false} QuotedQualifierIsStable(prefix: string)
    requires prefix == QUOTED_PG_CATALOG
    ensures Fold(prefix, false) == prefix && !InQuotes(prefix, false)
  {
    var inner := prefix[1..11];
    QuotedParts(prefix, inner);
    QuotedPrefixIsStable(inner);
    QuotedIsBalanced(inner);
  }

  lemma {:induction false} QuotedParts(prefix: string, inner: string)
    requires prefix == QUOTED_PG_CATALOG && inner == prefix[1..11]
    ensures Inert(inner) && prefix == ['"'] + inner + ['"'] + ['.']
  {
  }

  lemma {:induction false} QualifierIsStripped(prefix: string, name: string)
    requires IsQualifier(prefix)
    ensures StripPgCatalog(prefix + name) == name
  {
    var text := prefix + name;
    assert text[|prefix|..] == name;
    assert text[0] == prefix[0];
  }

  lemma {:induction false} QuotedPrefixIsStable(inner: string)
    requires Inert(inner)
    ensures var s := ['"'] + inner + ['"'] + ['.']; Fold(s, false) == s
  {
    var rest := inner + ['"', '.'];
    var s := ['"'] + inner + ['"'] + ['.'];
    assert s[1..] == rest && s[0] == '"';
    InertIsStable(inner, true);
    FoldConcat(inner, ['"', '.'], true);
    assert ['"', '.'][1..] == ['.'] && ['.'][1..] == "";
    assert Fold(['.'], false) == ['.'];
    assert Fold(['"', '.'], true) == ['"', '.'];
  }

  // ------------------------------------------------- which types take which modifier

  const TIMES := {"time", "timestamp", "timestamptz", "timetz", "interval"}
  const LENGTHS := {"bpchar", "varchar", "bit", "varbit"}

  lemma KindOfName(typname: string)
    ensures typname in TIMES <==> TypmodKindOf(typname).SecondsTypmod? || TypmodKindOf(typname).IntervalTypmod?
    ensures typname in LENGTHS <==> TypmodKindOf(typname).CharacterTypmod? || TypmodKindOf(typname).BitTypmod?
    ensures typname == "numeric" <==> TypmodKindOf(typname).NumericTypmod?
  {
  }

  /** Ten types take a modifier. Of a time it limits nothing, of a text or bit string it is a
      length, of a number precision and scale; every other type rejects one. */
  lemma ModifierRules(e: BuiltinType, written: string, raw: string)
    ensures var t := ClassifyTypmod(Some(e), written, Some(raw));
            && (e.typname in TIMES ==> t == Unbounded)
            && (e.typname in LENGTHS ==> t == ClassifyLength(raw))
            && (e.typname == "numeric" ==> t == ClassifyNumeric(raw))
            && (e.typname !in TIMES && e.typname !in LENGTHS && e.typname != "numeric" ==> t == OutOfRange)
  {
    KindOfName(e.typname);
  }

  /** Without one, a bare `char`, `character` or `bit` has length one; strings and numbers are
      otherwise unlimited, and for all other types there is nothing to limit. */
  lemma BareRules(e: BuiltinType, written: string)
    ensures var t := ClassifyTypmod(Some(e), written, None);
            && (e.typname in LENGTHS || e.typname == "numeric" ==> t == Unbounded || t == CharacterLength(1))
            && (t == CharacterLength(1) <==>
                  (e.typname == "bpchar" || e.typname == "bit") && written in {"char", "character", "bit"})
            && (e.typname !in LENGTHS && e.typname != "numeric" ==> t == NotApplicable)
  {
    KindOfName(e.typname);
  }

  /** `numeric(p)` has precision p and scale zero. */
  lemma {:induction false} PrecisionAlone(precision: int)
    ensures ClassifyNumeric(IntText(precision)) ==
            if 1 <= precision <= MAX_NUMERIC_PRECISION then NumericParams(precision, None) else OutOfRange
  {
    IntTextIsNumeral(precision);
    NumeralsAreStable(IntText(precision));
    IntTextReadsBack(precision);
    NoComma(IntText(precision));
  }

  lemma NoComma(s: string)
    requires ',' !in s
    ensures FirstIndexOf(s, ',').None?
  {
  }

  // ------------------------------------------------- aliases

  const INTEGERS := {"int", "integer", "smallint", "bigint"}
  const REALS := {"real", "float", "double precision", "decimal", "dec"}
  const STRINGS := {"char", "character", "nchar", "national char", "national character"}
  const VARYINGS := {"character varying", "nchar varying", "national char varying", "national character varying", "bit varying"}
  const ZONED := {"time without time zone", "time with time zone", "timestamp without time zone", "timestamp with time zone"}

  lemma IntegerAliases(name: string)
    requires name in INTEGERS
    ensures GrammarAlias(name) == if name == "smallint" then "int2" else if name == "bigint" then "int8" else "int4"
  {
  }

  lemma RealAliases(name: string)
    requires name in REALS
    ensures GrammarAlias(name) ==
            if name == "real" then "float4" else if name == "decimal" || name == "dec" then "numeric" else "float8"
  {
  }

  lemma StringAliases(name: string)
    requires name in STRINGS || name in VARYINGS
    ensures GrammarAlias(name) == if name in STRINGS then "bpchar" else if name == "bit varying" then "varbit" else "varchar"
  {
  }

  lemma TimeAliases(name: string)
    requires name in ZONED
    ensures GrammarAlias(name) ==
            if name == "time without time zone" then "time"
            else if name == "time with time zone" then "timetz"
            else if name == "timestamp without time zone" then "timestamp"
            else "timestamptz"
  {
  }

  /** Any other name stands for itself. */
  lemma OtherNamesAreNoAliases(name: string)
    requires name !in INTEGERS && name !in REALS && name !in STRINGS && name !in VARYINGS && name !in ZONED
    ensures GrammarAlias(name) == name
  {
  }
}
