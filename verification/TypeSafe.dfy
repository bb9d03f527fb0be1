/** When a type change must be judged safe: the converse of what a safe change keeps. */
module TypeSafe {
  import opened Collections
  import opened TypeCatalogue
  import opened DataType
  import opened TypeRoundTrip
  import opened TypeChange
  import opened TypeLossy

  /** Every value of the one is a value of the other as it is. */
  ghost predicate Widens(p: ParsedDataType, q: ParsedDataType) {
    forall s :: AdmitsScalar(p, s) ==> AdmitsScalar(q, s)
  }

  predicate SameDeclaration(p: ParsedDataType, q: ParsedDataType) {
    Identity(p) == Identity(q) && p.rawTypmods == q.rawTypmods
  }

  // ------------------------------------------------- text

  lemma UnlimitedTextHasNoModifier(q: ParsedDataType, types: seq<BuiltinType>)
    requires KnownFamilies(types) && Comes(q, types) && IsTextLike(q) && CharacterLimit(q).None?
    ensures q.rawTypmods.None?
  {
    var written :| ResolveType(types, written) == q.builtin && q.typmod == ClassifyTypmod(q.builtin, written, q.rawTypmods);
    assert KnownFamily(q.builtin.value);
    if q.rawTypmods.Some? {
      ModifiedTextIsLimited(q.builtin.value, written, q.rawTypmods);
    }
  }

  lemma ModifiedTextIsLimited(e: BuiltinType, written: string, raw: Option<string>)
    requires KnownFamily(e) && e.category == String && raw.Some?
    ensures var t := ClassifyTypmod(Some(e), written, raw); t.CharacterLength? || t == OutOfRange
  {
    assert TypmodKindOf(e.typname).CharacterTypmod? || TypmodKindOf(e.typname).NoTypmod? by {
      TextKinds(e.typname);
    }
  }

  lemma TextKinds(typname: string)
    requires typname != "bit" && typname != "varbit" && typname != "numeric"
    ensures !TypmodKindOf(typname).BitTypmod? && !TypmodKindOf(typname).NumericTypmod?
  {
  }

  /** Between text types without fixed width, `character` aside: safe exactly when every value
      of the old type fits the new one. */
  lemma TextSafeExactly(p: ParsedDataType, q: ParsedDataType, types: seq<BuiltinType>, pgVersion: nat)
    requires KnownFamilies(types) && Comes(p, types) && Comes(q, types) && IsTextLike(p) && IsTextLike(q)
    requires !IsNamed(p, "bpchar") && !IsNamed(q, "bpchar") && FixedBits(p).None? && FixedBits(q).None?
    ensures IsTypeChangeSafe(p, q, pgVersion) <==> Widens(p, q)
  {
    if IsTypeChangeSafe(p, q, pgVersion) {
      forall s | AdmitsScalar(p, s) ensures AdmitsScalar(q, s) {
        SafeChangeKeepsScalars(p, q, types, pgVersion, s);
      }
    } else {
      if CharacterLimit(q).None? {
        UnlimitedTextHasNoModifier(q, types);
      }
      var s := Text(CharacterLimit(q).value + 1);
      assert AdmitsScalar(p, s) && !AdmitsScalar(q, s);
    }
  }

  /** `character` is blank-padded, so a change from or to it is safe only when nothing changes. */
  lemma CharacterSafeExactly(p: ParsedDataType, q: ParsedDataType, pgVersion: nat)
    requires IsNamed(p, "bpchar") || IsNamed(q, "bpchar")
    ensures IsTypeChangeSafe(p, q, pgVersion) <==> SameDeclaration(p, q)
  {
  }

  // ------------------------------------------------- numbers

  lemma NumbersWidenExactly(p: ParsedDataType, q: ParsedDataType)
    requires IsExactNumeric(p) && IsExactNumeric(q) && !IsTextLike(p)
    ensures var old_, new_ := NumericParamsOf(p), NumericParamsOf(q);
            Widens(p, q) <==> new_.None? || (old_.Some? && new_.value.0 >= old_.value.0 && new_.value.1 == old_.value.1)
  {
    var old_, new_ := NumericParamsOf(p), NumericParamsOf(q);
    if new_.Some? {
      var (p2, s2) := new_.value;
      if old_.None? {
        assert AdmitsScalar(p, Number(Pow10(p2), s2)) && !AdmitsScalar(q, Number(Pow10(p2), s2));
      } else {
        var (p1, s1) := old_.value;
        Pow10Adds(p1, 0);
        if s1 != s2 {
          assert AdmitsScalar(p, Number(0, s1)) && !AdmitsScalar(q, Number(0, s1));
        } else if p2 < p1 {
          MorePrecision(p2, p1);
          assert AdmitsScalar(p, Number(Pow10(p2), s1)) && !AdmitsScalar(q, Number(Pow10(p2), s1));
        } else {
          Pow10Grows(p1, p2);
        }
      }
    }
  }

  lemma MorePrecision(a: nat, b: nat)
    requires a < b
    ensures Pow10(a) < Pow10(b)
  {
    Pow10Adds(a, 0);
    Pow10Grows(a + 1, b);
  }

  /** Between numeric types: safe exactly when the server is new enough to skip the rewrite and
      every number fits at its own scale, or when nothing changes. */
  lemma NumericSafeExactly(p: ParsedDataType, q: ParsedDataType, types: seq<BuiltinType>, pgVersion: nat)
    requires KnownFamilies(types) && Comes(p, types) && Comes(q, types) && IsExactNumeric(p) && IsExactNumeric(q)
    ensures IsTypeChangeSafe(p, q, pgVersion) <==> SameDeclaration(p, q) || (pgVersion >= 120_000 && Widens(p, q))
  {
    assert KnownFamily(p.builtin.value) && KnownFamily(q.builtin.value);
    NumbersWidenExactly(p, q);
  }

  /** Text never turns into numbers safely, nor back. */
  lemma FamilyChangeIsNotSafe(p: ParsedDataType, q: ParsedDataType, types: seq<BuiltinType>, pgVersion: nat)
    requires KnownFamilies(types) && Comes(p, types) && Comes(q, types) && IsTextLike(p) != IsTextLike(q)
    ensures !IsTypeChangeSafe(p, q, pgVersion)
  {
    if IsTypeChangeSafe(p, q, pgVersion) {
      SafeChangeKeepsFamily(p, q, types, pgVersion);
    }
  }
}
