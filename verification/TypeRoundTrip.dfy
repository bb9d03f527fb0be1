/** Printing a declaration that named a built-in and parsing it again gives the same type. */
module TypeRoundTrip {
  import opened Collections
  import opened TypeText
  import opened TypeCatalogue
  import opened DataType

  // ------------------------------------------------- well-formed catalogues

  predicate IsPlainChar(c: char) {
    'a' <= c <= 'z' || '0' <= c <= '9' || c == '_' || c == ' '
  }

  predicate Plain(s: string) {
    forall i :: 0 <= i < |s| ==> IsPlainChar(s[i])
  }

  /** Starts and ends with a word, words separated by single spaces. */
  predicate WellSpaced(s: string) {
    s != "" && s[0] != ' ' && s[|s| - 1] != ' ' && forall i :: 0 < i < |s| && s[i] == ' ' ==> s[i - 1] != ' '
  }

  /** A quoted word such as `"char"`. */
  predicate QuotedWord(s: string) {
    |s| >= 3 && s[0] == '"' && s[|s| - 1] == '"' && Plain(s[1..|s| - 1]) && ' ' !in s
  }

  predicate GoodName(s: string) {
    Plain(s) || QuotedWord(s)
  }

  predicate Grammar(name: string) {
    name == "float" || ExpandSerial(name) != name
  }

  /** One entry: a plain catalog name, and a canonical spelling that names this entry and
      nothing else. */
  ghost predicate WellFormedEntry(types: seq<BuiltinType>, e: BuiltinType) {
    && Plain(e.typname)
    && GoodName(e.canonical) && WellSpaced(e.canonical)
    && !Grammar(e.canonical)
    && ResolveType(types, e.canonical) == Some(e)
  }

  ghost predicate WellFormed(types: seq<BuiltinType>) {
    SortedByName(types) && forall e :: e in types ==> WellFormedEntry(types, e)
  }

  // ------------------------------------------------- names carry balanced quotes

  lemma {:induction false} PlainIsInert(s: string)
    requires Plain(s)
    ensures Inert(s)
  {
  }

  lemma GoodNameIsStable(s: string)
    requires GoodName(s)
    ensures Fold(s, false) == s && !InQuotes(s, false)
  {
    if Plain(s) {
      PlainIsInert(s);
      InertIsStable(s, false);
    } else {
      var inner := s[1..|s| - 1];
      PlainIsInert(inner);
      InertIsStable(inner, true);
      assert s == "\"" + inner + "\"";
      FoldConcat("\"" + inner, "\"", false);
      FoldConcat("\"", inner, false);
      assert Fold("\"", false) == "\"" && InQuotes("\"", false) && Fold("\"", true) == "\"";
    }
  }

  lemma PlainSpellings0(name: string)
    requires name in {"int", "integer", "smallint", "bigint", "real", "float"}
    ensures Plain(name)
  {
  }

  lemma PlainSpellings1(name: string)
    requires name in {"double precision", "decimal", "dec", "bit varying"}
    ensures Plain(name)
  {
  }

  lemma PlainSpellings2(name: string)
    requires name in {"char", "character", "character varying", "nchar", "nchar varying"}
    ensures Plain(name)
  {
  }

  lemma PlainSpellings3(name: string)
    requires name in {"national character", "national char"}
    ensures Plain(name)
  {
  }

  lemma PlainSpellings4(name: string)
    requires name in {"national character varying", "national char varying"}
    ensures Plain(name)
  {
  }

  lemma PlainSpellings5(name: string)
    requires name in {"timestamp without time zone", "timestamp with time zone"}
    ensures Plain(name)
  {
  }

  lemma PlainSpellings6(name: string)
    requires name in {"time without time zone", "time with time zone"}
    ensures Plain(name)
  {
  }

  lemma PlainSpellings7(name: string)
    requires name in {"serial", "serial4", "bigserial", "serial8", "smallserial", "serial2"}
    ensures Plain(name)
  {
  }

  lemma AliasesArePlain(name: string)
    requires name in TYPE_ALIASES || Grammar(name)
    ensures Plain(name)
  {
    if name in {"int", "integer", "smallint", "bigint", "real", "float"} {
      PlainSpellings0(name);
    } else if name in {"double precision", "decimal", "dec", "bit varying"} {
      PlainSpellings1(name);
    } else if name in {"char", "character", "character varying", "nchar", "nchar varying"} {
      PlainSpellings2(name);
    } else if name in {"national character", "national char"} {
      PlainSpellings3(name);
    } else if name in {"national character varying", "national char varying"} {
      PlainSpellings4(name);
    } else if name in {"timestamp without time zone", "timestamp with time zone"} {
      PlainSpellings5(name);
    } else if name in {"time without time zone", "time with time zone"} {
      PlainSpellings6(name);
    } else {
      PlainSpellings7(name);
    }
  }

  /** Whatever a lookup accepts has balanced quotes, and none at all if it has a space. */
  lemma AcceptedNamesAreGood(types: seq<BuiltinType>, name: string)
    requires WellFormed(types) && (ResolveType(types, name).Some? || Grammar(name))
    ensures GoodName(name)
  {
    if name in TYPE_ALIASES || Grammar(name) {
      AliasesArePlain(name);
    } else {
      var e := ResolveType(types, name).value;
      assert WellFormedEntry(types, e);
    }
  }

  // ------------------------------------------------- the modifier is stable text

  lemma StableParts(a: string, b: string, quoted: bool)
    requires Fold(a + b, quoted) == a + b
    ensures Fold(a, quoted) == a && Fold(b, InQuotes(a, quoted)) == b
  {
    FoldConcat(a, b, quoted);
    assert Fold(a, quoted) == (a + b)[..|a|] == a;
    assert Fold(b, InQuotes(a, quoted)) == (a + b)[|a|..] == b;
  }

  lemma StableTrim(s: string, quoted: bool)
    requires Fold(s, quoted) == s
    ensures Fold(Trim(s), quoted) == Trim(s) && InQuotes(Trim(s), quoted) == InQuotes(s, quoted) && Tight(Trim(s))
  {
    var front, back := TrimCuts(s);
    SpacesAreInert(front);
    SpacesAreInert(back);
    InertIsStable(front, quoted);
    assert s == front + (Trim(s) + back);
    StableParts(front, Trim(s) + back, quoted);
    StableParts(Trim(s), back, quoted);
    FoldConcat(front, Trim(s) + back, quoted);
    FoldConcat(Trim(s), back, quoted);
    InertIsStable(back, InQuotes(Trim(s), quoted));
  }

  lemma SpacesAreInert(s: string)
    requires forall i :: 0 <= i < |s| ==> IsSpace(s[i])
    ensures Inert(s)
  {
  }

  lemma LookedUpIsGood(types: seq<BuiltinType>, d: Declared)
    requires WellFormed(types) && ResolveType(types, LookedUp(d).0).Some?
    ensures GoodName(StripPgCatalog(d.text))
  {
    var name := StripPgCatalog(d.text);
    assert Grammar(name) || LookedUp(d).0 == name;
    AcceptedNamesAreGood(types, name);
  }

  /** A name that reaches back over a joining space leaves no quote open before it. */
  lemma {:induction false} JoinedIsBalanced(base: string, post: string, prefix: string, name: string)
    requires prefix + name == if post == "" then base else base + " " + post
    requires ' ' !in prefix && !InQuotes(prefix, false) && GoodName(name)
    ensures !InQuotes(base, false)
  {
    if post == "" {
      GoodNameIsStable(name);
      FoldConcat(prefix, name, false);
    } else {
      var text := prefix + name;
      assert text[|base|] == ' ';
      assert forall i :: 0 <= i < |prefix| ==> text[i] == prefix[i] && prefix[i] != ' ';
      assert |base| >= |prefix|;
      var k := |base| - |prefix|;
      assert name[k] == ' ' && ' ' in name;
      var part := name[..k];
      assert base == text[..|base|] == prefix + part;
      PlainIsInert(part);
      FoldConcat(prefix, part, false);
      InertIsStable(part, false);
    }
  }

  /** The text before the parenthesis closes all its quotes when a built-in was found. */
  lemma {:induction false} PreIsBalanced(types: seq<BuiltinType>, d: Declared, post: string)
    requires WellFormed(types) && ResolveType(types, LookedUp(d).0).Some?
    requires d.text == if post == "" then d.base else d.base + " " + post
    ensures !InQuotes(d.base, false)
  {
    var name := StripPgCatalog(d.text);
    LookedUpIsGood(types, d);
    PrefixIsBalanced(d.text);
    StrippingKeepsTheEnd(d.text);
    JoinedIsBalanced(d.base, post, d.text[..|d.text| - |name|], name);
  }

  lemma StrippingKeepsTheEnd(text: string)
    ensures var name := StripPgCatalog(text); |name| <= |text| && text == text[..|text| - |name|] + name
  {
  }

  lemma {:induction false} PlainPrefixIsBalanced(prefix: string)
    requires prefix == "pg_catalog."
    ensures ' ' !in prefix && !InQuotes(prefix, false)
  {
    assert Inert(prefix);
    InertIsStable(prefix, false);
  }

  lemma {:induction false} QuotedIsBalanced(inner: string)
    requires Inert(inner)
    ensures !InQuotes(['"'] + inner + ['"'] + ['.'], false)
  {
    var text := ['"'] + inner + ['"'] + ['.'];
    var rest := inner + ['"', '.'];
    assert text[1..] == rest;
    InertIsStable(inner, true);
    FoldConcat(inner, ['"', '.'], true);
    assert InQuotes(text, false) == InQuotes(rest, true) == InQuotes(['"', '.'], true);
    assert ['"', '.'][1..] == ['.'];
  }

  /** The schema qualifier that is dropped has no space and closes its quotes. */
  lemma {:induction false} PrefixIsBalanced(text: string)
    ensures var name := StripPgCatalog(text); var prefix := text[..|text| - |name|];
            ' ' !in prefix && !InQuotes(prefix, false)
  {
    var name := StripPgCatalog(text);
    var prefix := text[..|text| - |name|];
    if "pg_catalog." <= text {
      assert prefix == "pg_catalog.";
      PlainPrefixIsBalanced(prefix);
    } else if "\"pg_catalog\"." <= text {
      var inner := "pg_catalog";
      assert prefix == ['"'] + inner + ['"'] + ['.'];
      assert ' ' !in prefix;
      QuotedIsBalanced(inner);
    }
  }

  /** The parts a modifier splits the text into. */
  lemma SplitParts(t: string) returns (before: string, inside: string, after: string)
    requires SplitModifier(t).mods.Some?
    ensures t == before + "(" + inside + ")" + after
    ensures SplitModifier(t).mods == Some(Trim(inside)) && SplitModifier(t).base == Trim(before)
    ensures SplitModifier(t).text == if Trim(after) == "" then Trim(before) else Trim(before) + " " + Trim(after)
  {
    var open, close := FirstIndexOf(t, '(').value, LastIndexOf(t, ')').value;
    before, inside, after := t[..open], t[open + 1..close], t[close + 1..];
    assert t == t[..open] + [t[open]] + t[open + 1..close] + [t[close]] + t[close + 1..];
  }

  lemma {:induction false} InsideIsStable(before: string, inside: string, after: string)
    requires var t := before + "(" + inside + ")" + after; Fold(t, false) == t
    requires !InQuotes(Trim(before), false)
    ensures Fold(inside, false) == inside
  {
    var rest := inside + (")" + after);
    assert before + "(" + inside + ")" + after == before + ("(" + rest);
    StableParts(before, "(" + rest, false);
    StableTrim(before, false);
    StableParts("(", rest, false);
    assert Inert("(");
    InertIsStable("(", false);
    StableParts(inside, ")" + after, false);
  }

  lemma SplitModifierIsStable(t: string, types: seq<BuiltinType>)
    requires WellFormed(types) && Fold(t, false) == t && SplitModifier(t).mods.Some?
    requires ResolveType(types, LookedUp(SplitModifier(t)).0).Some?
    ensures var m := SplitModifier(t).mods.value; Fold(m, false) == m && Tight(m)
  {
    var before, inside, after := SplitParts(t);
    PreIsBalanced(types, SplitModifier(t), Trim(after));
    InsideIsStable(before, inside, after);
    StableTrim(inside, false);
  }

  lemma {:induction false} StrippedIsStable(folded: string)
    requires Tight(folded) && Fold(folded, false) == folded
    ensures Fold(StripArrays(folded).text, false) == StripArrays(folded).text
  {
    StrippedIsPrefix(folded);
    StablePrefix(StripArrays(folded).text, folded);
  }

  lemma {:induction false} StablePrefix(t: string, s: string)
    requires t <= s && Fold(s, false) == s
    ensures Fold(t, false) == t
  {
    var rest := s[|t|..];
    assert s == t + rest;
    StableParts(t, rest, false);
  }

  /** A declared modifier on a built-in reads the same wherever it is printed. */
  lemma ModifierIsStable(folded: string, types: seq<BuiltinType>)
    requires WellFormed(types) && Tight(folded) && Fold(folded, false) == folded
    requires var d := SplitModifier(StripArrays(folded).text);
             d.mods.Some? && ResolveType(types, LookedUp(d).0).Some?
    ensures var m := SplitModifier(StripArrays(folded).text).mods.value; Fold(m, false) == m && Tight(m)
  {
    StrippedIsStable(folded);
    SplitModifierIsStable(StripArrays(folded).text, types);
  }

  // ------------------------------------------------- reading a rendering back

  /** Characters that never occur in a name. */
  lemma GoodNameHasNoBrackets(s: string)
    requires GoodName(s)
    ensures '(' !in s && ')' !in s && ']' !in s && '.' !in s
    ensures forall i :: 0 <= i < |s| && s[i] != ' ' ==> !IsSpace(s[i])
  {
    if QuotedWord(s) {
      forall i | 0 < i < |s| - 1 ensures IsPlainChar(s[i]) {
        assert s[i] == s[1..|s| - 1][i - 1];
      }
    }
  }

  predicate IsTimeZone(tz: string) {
    tz == WITHOUT_TZ || tz == WITH_TZ
  }

  lemma TimeZoneShape(tz: string)
    requires IsTimeZone(tz)
    ensures Plain(tz) && Inert(tz) && |tz| > 1 && tz[0] == ' ' && Tight(tz[1..]) && tz[|tz| - 1] == 'e'
    ensures '(' !in tz && ')' !in tz
    ensures Trim(tz) == tz[1..] && tz[1..] != ""
  {
    TrimDropsLeadingSpace(tz);
  }

  lemma TrimDropsLeadingSpace(s: string)
    requires |s| > 1 && s[0] == ' ' && Tight(s[1..])
    ensures Trim(s) == s[1..]
  {
    assert TrimStart(s) == TrimStart(s[1..]) == s[1..];
  }

  lemma BaseShape(name: string)
    requires GoodName(name) && WellSpaced(name)
    ensures var (base, tz) := SplitTimeZone(name);
            && base != "" && Tight(base) && GoodName(base)
            && (tz == "" || (IsTimeZone(tz) && Plain(name)))
  {
    GoodNameHasNoBrackets(name);
    var (base, tz) := SplitTimeZone(name);
    if tz != "" {
      TimeZoneShape(tz);
      assert name[|base|] == tz[0] == ' ';
      assert Plain(name) && Plain(base);
      assert base != "" && name[|base| - 1] != ' ';
      assert base[0] == name[0] && base[|base| - 1] == name[|base| - 1];
      GoodNameHasNoBrackets(base);
    } else {
      assert base == name;
    }
  }

  predicate StableMods(mods: Option<string>) {
    mods.Some? ==> Fold(mods.value, false) == mods.value && Tight(mods.value)
  }

  function Parenthesized(mods: Option<string>): string {
    if mods.Some? then "(" + mods.value + ")" else ""
  }

  lemma StableConcat(a: string, b: string, quoted: bool)
    requires Fold(a, quoted) == a && Fold(b, InQuotes(a, quoted)) == b
    ensures Fold(a + b, quoted) == a + b
  {
    FoldConcat(a, b, quoted);
  }

  lemma ParenthesizedIsStable(mods: Option<string>)
    requires StableMods(mods)
    ensures Fold(Parenthesized(mods), false) == Parenthesized(mods)
  {
    if mods.Some? {
      var m := mods.value;
      assert Inert("(") && Inert(")");
      InertIsStable("(", false);
      FoldConcat("(", m, false);
      InertIsStable(")", InQuotes("(" + m, false));
      StableConcat("(" + m, ")", false);
    }
  }

  lemma {:induction false} RenderedParts(name: string, mods: Option<string>, dimensions: nat)
    ensures var (base, tz) := SplitTimeZone(name);
            Rendered(name, mods, dimensions) == base + Parenthesized(mods) + (tz + ArraySuffix(dimensions))
  {
    var (base, tz) := SplitTimeZone(name);
    assert base + Parenthesized(mods) + tz + ArraySuffix(dimensions) ==
           base + Parenthesized(mods) + (tz + ArraySuffix(dimensions));
  }

  /** A rendering folds to itself. */
  lemma RenderedIsStable(name: string, mods: Option<string>, dimensions: nat)
    requires GoodName(name) && WellSpaced(name) && StableMods(mods)
    ensures Fold(Rendered(name, mods, dimensions), false) == Rendered(name, mods, dimensions)
  {
    BaseShape(name);
    var (base, tz) := SplitTimeZone(name);
    var tail := tz + ArraySuffix(dimensions);
    TailIsInert(tz, dimensions);
    GoodNameIsStable(base);
    ParenthesizedIsStable(mods);
    StableConcat(base, Parenthesized(mods), false);
    var body := base + Parenthesized(mods);
    InertIsStable(tail, InQuotes(body, false));
    StableConcat(body, tail, false);
    RenderedParts(name, mods, dimensions);
  }

  lemma {:induction false} TailIsInert(tz: string, n: nat)
    requires tz == "" || IsTimeZone(tz)
    ensures Inert(tz + ArraySuffix(n))
  {
    if n == 0 {
      if tz != "" {
        TimeZoneShape(tz);
      }
    } else {
      TailIsInert(tz, n - 1);
      assert tz + ArraySuffix(n) == (tz + ArraySuffix(n - 1)) + "[]";
      assert Inert("[]");
    }
  }

  lemma BodyShape(name: string, mods: Option<string>)
    requires GoodName(name) && WellSpaced(name)
    ensures var body := Rendered(name, mods, 0); body != "" && Tight(body) && !EndsWithArray(body)
  {
    BaseShape(name);
    var (base, tz) := SplitTimeZone(name);
    GoodNameHasNoBrackets(base);
    var body := Rendered(name, mods, 0);
    assert body == base + Parenthesized(mods) + tz;
    assert body[0] == base[0];
    if tz != "" {
      TimeZoneShape(tz);
      assert body[|body| - 1] == tz[|tz| - 1];
    } else if mods.Some? {
      assert body[|body| - 1] == ')';
    } else {
      assert body == base && base[|base| - 1] in base;
    }
  }

  lemma RenderedStrips(name: string, mods: Option<string>, dimensions: nat)
    requires GoodName(name) && WellSpaced(name)
    ensures StripArrays(Rendered(name, mods, dimensions)) == Stripped(Rendered(name, mods, 0), dimensions)
    ensures Tight(Rendered(name, mods, dimensions))
  {
    BodyShape(name, mods);
    var body := Rendered(name, mods, 0);
    assert Rendered(name, mods, dimensions) == body + ArraySuffix(dimensions);
    StripRemovesSuffix(body, dimensions);
    SuffixedIsTight(body, dimensions);
  }

  /** The modifier and the joined name come back apart. */
  lemma RenderedSplits(name: string, mods: Option<string>)
    requires GoodName(name) && WellSpaced(name) && StableMods(mods)
    ensures SplitModifier(Rendered(name, mods, 0)).text == name
    ensures SplitModifier(Rendered(name, mods, 0)).mods == mods
  {
    if mods.None? {
      UnmodifiedSplits(name);
    } else {
      ModifiedSplits(name, mods.value);
    }
  }

  lemma {:induction false} UnmodifiedSplits(name: string)
    requires GoodName(name)
    ensures SplitModifier(Rendered(name, None, 0)) == Declared(name, name, None)
  {
    UnmodifiedIsItsName(name);
    GoodNameHasNoBrackets(name);
    PlainTextHasNoModifier(name);
  }

  lemma {:induction false} UnmodifiedIsItsName(name: string)
    ensures Rendered(name, None, 0) == name
  {
    var (base, tz) := SplitTimeZone(name);
    assert base + tz == name;
    assert ArraySuffix(0) == "";
  }

  lemma PlainTextHasNoModifier(text: string)
    requires '(' !in text
    ensures SplitModifier(text) == Declared(text, text, None)
  {
    assert FirstIndexOf(text, '(').None?;
  }

  lemma {:induction false} ModifiedSplits(name: string, m: string)
    requires GoodName(name) && WellSpaced(name) && Tight(m)
    ensures SplitModifier(Rendered(name, Some(m), 0)).text == name
    ensures SplitModifier(Rendered(name, Some(m), 0)).mods == Some(m)
  {
    BaseShape(name);
    var (base, tz) := SplitTimeZone(name);
    GoodNameHasNoBrackets(base);
    TightIsTrimmed(base);
    TightIsTrimmed(m);
    RenderedWithModifier(name, m);
    if tz != "" {
      TimeZoneShape(tz);
    }
    PartsRejoin(base, m, tz);
  }

  lemma {:induction false} RenderedWithModifier(name: string, m: string)
    ensures var (base, tz) := SplitTimeZone(name); Rendered(name, Some(m), 0) == base + "(" + m + ")" + tz
  {
    assert ArraySuffix(0) == "";
  }

  lemma {:induction false} PartsRejoin(base: string, m: string, tz: string)
    requires '(' !in base && ')' !in tz && Trim(base) == base && Trim(m) == m
    requires if tz == "" then true else tz[0] == ' ' && Trim(tz) == tz[1..] && tz[1..] != ""
    ensures SplitModifier(base + "(" + m + ")" + tz).text == base + tz
    ensures SplitModifier(base + "(" + m + ")" + tz).mods == Some(m)
  {
    PartsComeBack(base, m, tz);
    if tz == "" {
      assert Trim(tz) == "" && base + tz == base;
    } else {
      SpaceRejoins(base, tz);
    }
  }

  lemma SpaceRejoins(base: string, tz: string)
    requires tz != "" && tz[0] == ' '
    ensures base + " " + tz[1..] == base + tz
  {
  }

  lemma {:induction false} PartsComeBack(base: string, m: string, tz: string)
    requires '(' !in base && ')' !in tz
    ensures var t := base + "(" + m + ")" + tz;
            var post := Trim(tz);
            SplitModifier(t) == Declared(if post == "" then Trim(base) else Trim(base) + " " + post, Trim(base), Some(Trim(m)))
  {
    var t := base + "(" + m + ")" + tz;
    var close := |base| + 1 + |m|;
    PartsSliced(t, base, m, tz);
    SlicesSplit(t, base, m, tz, close);
  }

  lemma {:induction false} SlicesSplit(t: string, base: string, m: string, tz: string, close: nat)
    requires |base| < close < |t| && t[|base|] == '(' && t[close] == ')' && '(' !in base && ')' !in tz
    requires t[..|base|] == base && t[|base| + 1..close] == m && t[close + 1..] == tz
    ensures var post := Trim(tz);
            SplitModifier(t) == Declared(if post == "" then Trim(base) else Trim(base) + " " + post, Trim(base), Some(Trim(m)))
  {
    SplitBySlices(t, |base|, close);
  }

  lemma PartsSliced(t: string, base: string, m: string, tz: string)
    requires t == base + "(" + m + ")" + tz
    ensures var close := |base| + 1 + |m|;
            && close < |t| && t[..|base|] == base && t[|base| + 1..close] == m && t[close + 1..] == tz
            && t[|base|] == '(' && t[close] == ')'
  {
  }

  lemma {:induction false} SplitBySlices(t: string, open: nat, close: nat)
    requires open < close < |t| && t[open] == '(' && t[close] == ')' && '(' !in t[..open] && ')' !in t[close + 1..]
    ensures var pre, post := Trim(t[..open]), Trim(t[close + 1..]);
            SplitModifier(t) == Declared(if post == "" then pre else pre + " " + post, pre, Some(Trim(t[open + 1..close])))
  {
    FirstAt(t, '(', open);
    LastAt(t, ')', close);
  }

  lemma {:induction false} FirstAt(s: string, c: char, i: nat)
    requires i < |s| && s[i] == c && c !in s[..i]
    ensures FirstIndexOf(s, c) == Some(i)
  {
    assert forall k :: 0 <= k < i ==> s[..i][k] == s[k];
  }

  lemma {:induction false} LastAt(s: string, c: char, i: nat)
    requires i < |s| && s[i] == c && c !in s[i + 1..]
    ensures LastIndexOf(s, c) == Some(i)
  {
    assert forall k :: i < k < |s| ==> s[i + 1..][k - i - 1] == s[k];
  }

  // ------------------------------------------------- the round trip

  lemma UnqualifiedStays(name: string)
    requires '.' !in name
    ensures StripPgCatalog(name) == name
  {
    assert "pg_catalog."[10] == '.' && "\"pg_catalog\"."[12] == '.';
  }

  lemma NameIsLookedUpAsIs(name: string, mods: Option<string>, base: string)
    requires GoodName(name) && !Grammar(name)
    ensures LookedUp(Declared(name, base, mods)) == (name, mods)
  {
    GoodNameHasNoBrackets(name);
    UnqualifiedStays(name);
  }

  /** What parsing a rendering gives. */
  lemma RenderedParsesTo(name: string, mods: Option<string>, dimensions: nat, types: seq<BuiltinType>)
    requires GoodName(name) && WellSpaced(name) && !Grammar(name) && StableMods(mods)
    ensures var q := Parsed(Rendered(name, mods, dimensions), types);
            var builtin := ResolveType(types, name);
            && q.builtin == builtin && q.rawTypmods == mods && q.arrayDimensions == dimensions
            && q.typmod == ClassifyTypmod(builtin, name, mods)
  {
    var out := Rendered(name, mods, dimensions);
    RenderedStrips(name, mods, dimensions);
    TightIsTrimmed(out);
    RenderedIsStable(name, mods, dimensions);
    RenderedSplits(name, mods);
    var d := SplitModifier(Rendered(name, mods, 0));
    NameIsLookedUpAsIs(name, mods, d.base);
  }

  lemma BpcharIsAName()
    ensures GoodName("bpchar") && WellSpaced("bpchar") && !Grammar("bpchar") && "bpchar" !in TYPE_ALIASES
  {
    assert Plain("bpchar");
  }

  /** The name a built-in renders with names that built-in. */
  lemma RenderedNameResolves(types: seq<BuiltinType>, p: ParsedDataType)
    requires WellFormed(types) && p.builtin.Some? && p.builtin.value in types
    ensures var name := RenderedName(p);
            ResolveType(types, name) == p.builtin && GoodName(name) && WellSpaced(name) && !Grammar(name)
  {
    var e := p.builtin.value;
    assert WellFormedEntry(types, e);
    BpcharIsAName();
    if IsNamed(p, "bpchar") {
      BpcharResolves(types, e);
    }
  }

  lemma BpcharResolves(types: seq<BuiltinType>, e: BuiltinType)
    requires SortedByName(types) && e in types && e.typname == "bpchar"
    ensures ResolveType(types, "bpchar") == Some(e)
  {
    BpcharIsAName();
    NamesAreUnique(types, e, ByTypname(types, "bpchar").value);
  }

  lemma OneClassifies()
    ensures ClassifyLength("1") == CharacterLength(1) && StableMods(Some("1"))
  {
    assert Trim("1") == "1";
    assert Digits("1") == Some(1);
    assert Inert("1");
    InertIsStable("1", false);
  }

  lemma BitIsWrittenPlainly(types: seq<BuiltinType>, name: string)
    requires ResolveType(types, name).Some? && ResolveType(types, name).value.typname == "bit"
    ensures name == "bit" || name == ResolveType(types, name).value.canonical
  {
  }

  /** The rendered name and modifier classify as the written ones did. */
  lemma RenderingKeepsTypmod(types: seq<BuiltinType>, p: ParsedDataType, written: string)
    requires ResolveType(types, written) == p.builtin && p.builtin.Some?
    requires p.typmod == ClassifyTypmod(p.builtin, written, p.rawTypmods)
    ensures ClassifyTypmod(p.builtin, RenderedName(p), RenderedMods(p)) == p.typmod
  {
    OneClassifies();
    var typname := p.builtin.value.typname;
    if p.rawTypmods.None? && p.typmod == Unbounded && typname == "bit" {
      BitIsWrittenPlainly(types, written);
    }
  }

  lemma FoldedIsStable(raw: string)
    ensures var folded := Fold(Trim(raw), false); Tight(folded) && Fold(folded, false) == folded
  {
    var front, back := TrimCuts(raw);
    FoldTwice(Trim(raw), false);
    FoldKeepsSpaces(Trim(raw), false);
  }

  lemma {:induction false} RenderedModsAreStable(raw: string, types: seq<BuiltinType>)
    requires WellFormed(types) && Parsed(raw, types).builtin.Some?
    ensures StableMods(RenderedMods(Parsed(raw, types)))
  {
    var folded := Fold(Trim(raw), false);
    FoldedIsStable(raw);
    if SplitModifier(StripArrays(folded).text).mods.Some? {
      ModifierIsStable(folded, types);
    }
    RawModsDecideRendered(Parsed(raw, types));
  }

  lemma RawModsDecideRendered(p: ParsedDataType)
    requires StableMods(p.rawTypmods)
    ensures StableMods(RenderedMods(p))
  {
    OneClassifies();
  }

  /** Printing a declaration that named a built-in and parsing it again yields the same
      built-in, modifier class and array dimension, and the printed modifier. */
  lemma PrintParseRoundTrip(raw: string, types: seq<BuiltinType>)
    requires WellFormed(types) && Parsed(raw, types).builtin.Some?
    ensures var p := Parsed(raw, types); var q := Parsed(Display(p), types);
            && q.builtin == p.builtin && q.typmod == p.typmod && q.arrayDimensions == p.arrayDimensions
            && q.rawTypmods == RenderedMods(p)
  {
    var p := Parsed(raw, types);
    var d := SplitModifier(StripArrays(Fold(Trim(raw), false)).text);
    RenderedModsAreStable(raw, types);
    RenderedNameResolves(types, p);
    RenderingKeepsTypmod(types, p, LookedUp(d).0);
    RenderedParsesTo(RenderedName(p), RenderedMods(p), p.arrayDimensions, types);
  }

  /** Printing is a normal form: printing the reparsed declaration changes nothing. */
  lemma PrintingIsIdempotent(raw: string, types: seq<BuiltinType>)
    requires WellFormed(types) && Parsed(raw, types).builtin.Some?
    ensures var printed := Display(Parsed(raw, types)); Display(Parsed(printed, types)) == printed
  {
    PrintParseRoundTrip(raw, types);
    SamePartsSameText(Parsed(raw, types), Parsed(Display(Parsed(raw, types)), types));
  }

  lemma SamePartsSameText(p: ParsedDataType, q: ParsedDataType)
    requires p.builtin.Some? && q.builtin == p.builtin && q.typmod == p.typmod && q.arrayDimensions == p.arrayDimensions
    requires q.rawTypmods == RenderedMods(p)
    ensures Display(q) == Display(p)
  {
    assert RenderedMods(q) == RenderedMods(p) && RenderedName(q) == RenderedName(p);
  }

  // ------------------------------------------------- a catalogue of that form

  const CHARACTER := BuiltinType("bpchar", "character", String, None, true, true)
  const ONE_BYTE := BuiltinType("char", "\"char\"", String, Some(8), false, false)
  const NUMERIC := BuiltinType("numeric", "numeric", Numeric, None, true, false)
  const VARYING := BuiltinType("varchar", "character varying", String, None, true, true)

  const SAMPLE := [CHARACTER, ONE_BYTE, NUMERIC, VARYING]

  /** The assumptions on catalogues can be met, by entries that take modifiers and by one whose
      name must be quoted. */
  lemma {:induction false} SomeCatalogueIsWellFormed()
    ensures WellFormed(SAMPLE)
  {
    SampleIsSorted();
    forall e | e in SAMPLE ensures WellFormedEntry(SAMPLE, e) {
      if e == ONE_BYTE {
        QuotedEntry();
      } else {
        PlainEntry(SAMPLE, e);
      }
    }
  }

  lemma {:induction false} SampleIsSorted()
    ensures SortedByName(SAMPLE)
  {
  }

  predicate PlainSample(e: BuiltinType) {
    e == CHARACTER || e == NUMERIC || e == VARYING
  }

  lemma {:induction false} SampleSpelling(e: BuiltinType)
    requires PlainSample(e)
    ensures Plain(e.typname) && Plain(e.canonical) && WellSpaced(e.canonical)
  {
    SampleTypname(e);
    if e == VARYING {
      VaryingSpelling();
    }
  }

  lemma {:induction false} SampleTypname(e: BuiltinType)
    requires PlainSample(e)
    ensures Plain(e.typname)
  {
  }

  lemma {:induction false} VaryingSpelling()
    ensures Plain(VARYING.canonical) && WellSpaced(VARYING.canonical)
  {
  }

  lemma {:induction false} SampleAlias(e: BuiltinType)
    requires PlainSample(e)
    ensures GrammarAlias(e.canonical) == e.typname && !Grammar(e.canonical)
  {
  }

  lemma {:induction false} PlainEntry(types: seq<BuiltinType>, e: BuiltinType)
    requires SortedByName(types) && e in types && PlainSample(e)
    ensures WellFormedEntry(types, e)
  {
    SampleSpelling(e);
    SampleAlias(e);
    NamesAreUnique(types, e, ByTypname(types, e.typname).value);
  }

  lemma {:induction false} QuotedSpelling(e: BuiltinType)
    requires e == ONE_BYTE
    ensures Plain(e.typname) && QuotedWord(e.canonical) && WellSpaced(e.canonical)
  {
  }

  lemma {:induction false} QuotedAlias(e: BuiltinType)
    requires e == ONE_BYTE
    ensures GrammarAlias(e.canonical) == e.canonical && !Grammar(e.canonical)
  {
  }

  lemma {:induction false} NobodyIsNamed(name: string)
    requires name == ONE_BYTE.canonical
    ensures ByTypname(SAMPLE, name).None?
  {
    assert forall e :: e in SAMPLE ==> e.typname[0] != name[0];
  }

  lemma {:induction false} QuotedEntry()
    ensures WellFormedEntry(SAMPLE, ONE_BYTE)
  {
    QuotedSpelling(ONE_BYTE);
    QuotedAlias(ONE_BYTE);
    NobodyIsNamed(ONE_BYTE.canonical);
    assert ONE_BYTE in SAMPLE;
    assert forall e :: e in SAMPLE && e.canonical == ONE_BYTE.canonical ==> e == ONE_BYTE;
  }
}
