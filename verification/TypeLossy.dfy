/** The "lossy" judgement, for every pair of declarations, against the values that are lost. */
module TypeLossy {
  import opened Collections
  import opened TypeCatalogue
  import opened DataType
  import opened TypeRoundTrip
  import opened TypeChange

  ghost predicate LosesValue(p: ParsedDataType, q: ParsedDataType) {
    exists v :: Admits(p, v) && !Admits(q, v)
  }

  /** A different number of array dimensions is always called lossy. */
  lemma DimensionChangeIsLossy(p: ParsedDataType, q: ParsedDataType)
    requires p.arrayDimensions != q.arrayDimensions
    ensures IsLossyNarrowing(p, q)
  {
  }

  // ------------------------------------------------- text

  /** Same spelling of the modifier, and yet a length where there was none. */
  predicate SpellingTrap(p: ParsedDataType, q: ParsedDataType) {
    BpcharTrap(p, q) && p.rawTypmods == q.rawTypmods
  }

  /** Longer text into a fixed width goes unnoticed unless the old type had a width too. */
  predicate HiddenWidth(p: ParsedDataType, q: ParsedDataType) {
    WidthTrap(p, q) && FixedBits(p).None?
  }

  /** A narrow fixed width counts as unlimited, so a limit that holds all of it seems to cut. */
  predicate FalseAlarm(p: ParsedDataType, q: ParsedDataType) {
    FixedBits(p).Some? && CharacterLimit(q).Some? && FixedBits(p).value / 8 <= CharacterLimit(q).value
  }

  /** The longest text a declaration holds. */
  function TextBound(p: ParsedDataType): Option<int> {
    if FixedBits(p).Some? then Some(FixedBits(p).value / 8) else CharacterLimit(p)
  }

  lemma FixedTextHasNoLimit(p: ParsedDataType, types: seq<BuiltinType>)
    requires KnownFamilies(types) && Comes(p, types) && IsTextLike(p) && FixedBits(p).Some?
    ensures CharacterLimit(p).None?
  {
    var e := p.builtin.value;
    var written :| ResolveType(types, written) == p.builtin && p.typmod == ClassifyTypmod(p.builtin, written, p.rawTypmods);
    OnlyFourTakeLengths(e, written, p.rawTypmods);
  }

  lemma OnlyFourTakeLengths(e: BuiltinType, written: string, raw: Option<string>)
    requires e.typname != "bit" && e.typname != "varbit" && e.typname != "bpchar" && e.typname != "varchar"
    ensures !ClassifyTypmod(Some(e), written, raw).CharacterLength?
  {
  }

  lemma BoundDecidesText(p: ParsedDataType, types: seq<BuiltinType>, length: nat)
    requires KnownFamilies(types) && Comes(p, types) && IsTextLike(p)
    ensures AdmitsScalar(p, Text(length)) <==> (TextBound(p).Some? ==> length <= TextBound(p).value)
    ensures TextBound(p).Some? ==> TextBound(p).value >= 1
  {
    if FixedBits(p).Some? {
      FixedTextHasNoLimit(p, types);
      assert KnownFamily(p.builtin.value);
    }
  }

  predicate BoundShrinks(a: Option<int>, b: Option<int>) {
    b.Some? && (a.Some? ==> b.value < a.value)
  }

  /** Text is lost exactly when the bound shrinks. */
  lemma TextLossIsShorterBound(p: ParsedDataType, q: ParsedDataType, types: seq<BuiltinType>)
    requires KnownFamilies(types) && Comes(p, types) && Comes(q, types) && IsTextLike(p) && IsTextLike(q)
    requires IsArray(p) == IsArray(q)
    ensures LosesValue(p, q) <==> BoundShrinks(TextBound(p), TextBound(q))
  {
    if BoundShrinks(TextBound(p), TextBound(q)) {
      var n := TextBound(q).value + 1;
      BoundDecidesText(q, types, 0);
      BoundDecidesText(p, types, n);
      BoundDecidesText(q, types, n);
      RefusedScalar(p, q, Text(n));
    } else {
      forall s | AdmitsScalar(p, s) ensures AdmitsScalar(q, s) {
        TextIsNoNumber(p, types, s);
        BoundDecidesText(p, types, s.length);
        BoundDecidesText(q, types, s.length);
      }
      forall v | Admits(p, v) ensures Admits(q, v) {
        ScalarsDecideValues(p, q, v);
      }
    }
  }

  lemma TextIsNoNumber(p: ParsedDataType, types: seq<BuiltinType>, s: Scalar)
    requires KnownFamilies(types) && Comes(p, types) && IsTextLike(p) && AdmitsScalar(p, s)
    ensures s.Text?
  {
    assert KnownFamily(p.builtin.value);
  }

  /** Between text types of equal dimension: called lossy exactly when a value is lost, but for
      the two losses that go unnoticed and the one alarm that is false. */
  lemma TextLossyExactly(p: ParsedDataType, q: ParsedDataType, types: seq<BuiltinType>)
    requires KnownFamilies(types) && Comes(p, types) && Comes(q, types) && IsTextLike(p) && IsTextLike(q)
    requires p.arrayDimensions == q.arrayDimensions
    ensures IsLossyNarrowing(p, q) <==>
            (LosesValue(p, q) && !SpellingTrap(p, q) && !HiddenWidth(p, q)) || FalseAlarm(p, q)
  {
    TextLossIsShorterBound(p, q, types);
    assert KnownFamily(p.builtin.value) && KnownFamily(q.builtin.value);
    IdentityDecides(p, q, types);
    if FixedBits(p).Some? {
      FixedTextHasNoLimit(p, types);
    }
    if FixedBits(q).Some? {
      FixedTextHasNoLimit(q, types);
    }
    if p.builtin == q.builtin && p.rawTypmods == q.rawTypmods {
      SameModifierSameLimit(p, q, types);
    } else {
      DifferentTextIsNoTrap(p, q, types);
    }
  }

  /** The spelling trap needs one built-in. */
  lemma DifferentTextIsNoTrap(p: ParsedDataType, q: ParsedDataType, types: seq<BuiltinType>)
    requires KnownFamilies(types) && Comes(p, types) && Comes(q, types) && IsTextLike(p) && IsTextLike(q)
    requires p.builtin != q.builtin || p.rawTypmods != q.rawTypmods
    ensures !SpellingTrap(p, q)
  {
    if SpellingTrap(p, q) {
      var w1 :| ResolveType(types, w1) == p.builtin && p.typmod == ClassifyTypmod(p.builtin, w1, p.rawTypmods);
      var w2 :| ResolveType(types, w2) == q.builtin && q.typmod == ClassifyTypmod(q.builtin, w2, q.rawTypmods);
      UnboundedHasNoModifier(p.builtin.value, w1, p.rawTypmods);
      assert KnownFamily(q.builtin.value);
      ImpliedLengthIsBpchar(q.builtin.value, w2);
      NamesAreUnique(types, p.builtin.value, q.builtin.value);
    }
  }

  lemma UnboundedHasNoModifier(e: BuiltinType, written: string, raw: Option<string>)
    requires e.typname == "bpchar" && ClassifyTypmod(Some(e), written, raw) == Unbounded
    ensures raw.None?
  {
  }

  lemma ImpliedLengthIsBpchar(e: BuiltinType, written: string)
    requires e.typname != "bit" && ClassifyTypmod(Some(e), written, None).CharacterLength?
    ensures e.typname == "bpchar"
  {
  }

  // ------------------------------------------------- numbers

  /** `k1` shifted right by `s1` digits is `k2` shifted right by `s2`. */
  predicate SameNumber(k1: int, s1: int, k2: int, s2: int) {
    if s1 >= s2 then k1 == k2 * Pow10(s1 - s2) else k1 * Pow10(s2 - s1) == k2
  }

  /** The declaration stores the number `k` shifted right by `s` digits. */
  predicate Stores(p: ParsedDataType, k: int, s: int) {
    NumericParamsOf(p).Some? ==>
      s == NumericParamsOf(p).value.1 && -(Pow10(p.typmod.precision) as int) < k < Pow10(p.typmod.precision)
  }

  /** The declaration stores that number, padded or not. */
  ghost predicate CanHold(p: ParsedDataType, k: int, s: int) {
    exists j, t :: Stores(p, j, t) && SameNumber(k, s, j, t)
  }

  ghost predicate LosesNumber(p: ParsedDataType, q: ParsedDataType) {
    exists k, s :: Stores(p, k, s) && !CanHold(q, k, s)
  }

  lemma {:induction false} Pow10Adds(a: nat, b: nat)
    ensures Pow10(a + b) == Pow10(a) * Pow10(b) && Pow10(a) >= 1
    decreases a
  {
    if a > 0 {
      Pow10Adds(a - 1, b);
      assert Pow10(a + b) == 10 * Pow10(a - 1 + b);
      assert 10 * (Pow10(a - 1) * Pow10(b)) == (10 * Pow10(a - 1)) * Pow10(b);
    }
  }

  /** Room enough before and behind the point holds every number. */
  lemma WiderHolds(p1: nat, s1: int, p2: nat, s2: int, k: int)
    requires s2 >= s1 && p2 - s2 >= p1 - s1 && -(Pow10(p1) as int) < k < Pow10(p1)
    ensures var j := k * Pow10(s2 - s1); -(Pow10(p2) as int) < j < Pow10(p2) && SameNumber(k, s1, j, s2)
  {
    var d := s2 - s1;
    Pow10Adds(p1, d);
    Pow10Adds(d, 0);
    Pow10Grows(p1 + d, p2);
    ScaledStays(k, Pow10(p1), Pow10(d));
    if d == 0 {
      assert Pow10(0) == 1;
    }
  }

  lemma ScaledStays(k: int, bound: nat, f: nat)
    requires -(bound as int) < k < bound && f >= 1
    ensures -((bound * f) as int) < k * f < bound * f
  {
    if k >= 0 {
      assert k * f <= (bound - 1) * f == bound * f - f;
    } else {
      assert (-k) * f <= (bound - 1) * f == bound * f - f;
      assert k * f == -((-k) * f);
    }
  }

  /** With less room behind the point, the number one in the last digit is lost. */
  lemma LastDigitIsLost(s1: int, s2: int, j: int)
    requires s2 < s1
    ensures !SameNumber(1, s1, j, s2)
  {
    var f := Pow10(s1 - s2);
    Pow10Adds(s1 - s2 - 1, 0);
    assert f >= 10;
    if j >= 1 {
      ProductGrows(j, 1, f);
    } else {
      ProductGrows(0, j, f);
    }
  }

  lemma ProductGrows(a: int, b: int, f: nat)
    requires a >= b
    ensures a * f >= b * f
  {
  }

  /** With less room before it, the largest number is lost. */
  lemma FirstDigitIsLost(p1: nat, s1: int, p2: nat, s2: int, j: int)
    requires p1 >= 1 && s2 >= s1 && p2 - s2 < p1 - s1 && SameNumber(Pow10(p1) - 1, s1, j, s2)
    ensures j >= Pow10(p2)
  {
    var d := s2 - s1;
    Pow10Adds(p1 - 1, d);
    Pow10Adds(p1 - 1, 0);
    Pow10Adds(d, 0);
    assert Pow10(p1) == 10 * Pow10(p1 - 1);
    var big := Pow10(p1) - 1;
    Pow10Grows(p2, p1 - 1 + d);
    ProductGrows(big, Pow10(p1 - 1), Pow10(d));
    ShiftedLeft(big, s1, j, s2);
  }

  lemma ShiftedLeft(k: int, s1: int, j: int, s2: int)
    requires s2 >= s1 && SameNumber(k, s1, j, s2)
    ensures j == k * Pow10(s2 - s1)
  {
    if s1 == s2 {
      assert Pow10(0) == 1;
    }
  }

  /** Precision and scale both grow, and yet fewer digits are left before the point. */
  predicate IntegerDigitsTrap(p: ParsedDataType, q: ParsedDataType) {
    NumericParamsOf(p).Some? && NumericParamsOf(q).Some? &&
    var (p1, s1) := NumericParamsOf(p).value; var (p2, s2) := NumericParamsOf(q).value;
    p2 >= p1 && s2 >= s1 && p2 - s2 < p1 - s1
  }

  lemma DigitsDecideLoss(p: ParsedDataType, q: ParsedDataType)
    requires NumericParamsOf(p).Some? && NumericParamsOf(q).Some?
    ensures var (p1, s1) := NumericParamsOf(p).value; var (p2, s2) := NumericParamsOf(q).value;
            LosesNumber(p, q) <==> s2 < s1 || p2 - s2 < p1 - s1
  {
    var (p1, s1) := NumericParamsOf(p).value;
    var (p2, s2) := NumericParamsOf(q).value;
    if s2 < s1 {
      Pow10Adds(p1 - 1, 0);
      assert Pow10(p1) >= 10;
      assert Stores(p, 1, s1);
      forall j, t | Stores(q, j, t) ensures !SameNumber(1, s1, j, t) {
        LastDigitIsLost(s1, s2, j);
      }
    } else if p2 - s2 < p1 - s1 {
      var big := Pow10(p1) - 1;
      Pow10Adds(p1 - 1, 0);
      assert Stores(p, big, s1);
      forall j, t | Stores(q, j, t) ensures !SameNumber(big, s1, j, t) {
        if SameNumber(big, s1, j, s2) {
          FirstDigitIsLost(p1, s1, p2, s2, j);
        }
      }
    } else {
      forall k, s | Stores(p, k, s) ensures CanHold(q, k, s) {
        WiderHolds(p1, s1, p2, s2, k);
        assert Stores(q, k * Pow10(s2 - s1), s2);
      }
    }
  }

  lemma UnlimitedLosesNothing(p: ParsedDataType, q: ParsedDataType)
    requires NumericParamsOf(q).None?
    ensures !LosesNumber(p, q)
  {
    assert Pow10(0) == 1;
    forall k, s | Stores(p, k, s) ensures CanHold(q, k, s) {
      assert Stores(q, k, s) && SameNumber(k, s, k, s);
    }
  }

  lemma LimitingLosesNumbers(p: ParsedDataType, q: ParsedDataType)
    requires NumericParamsOf(p).None? && NumericParamsOf(q).Some?
    ensures LosesNumber(p, q)
  {
    var (p2, s2) := NumericParamsOf(q).value;
    var k := Pow10(p2);
    assert Pow10(0) == 1;
    assert Stores(p, k, s2);
    forall j, t | Stores(q, j, t) ensures !SameNumber(k, s2, j, t) {
    }
  }

  /** Between numeric types of equal dimension: a number is lost exactly when the change is
      called lossy, or precision and scale both grow at the expense of the integer digits. */
  lemma NumericLossyExactly(p: ParsedDataType, q: ParsedDataType, types: seq<BuiltinType>)
    requires KnownFamilies(types) && Comes(p, types) && Comes(q, types) && IsExactNumeric(p) && IsExactNumeric(q)
    requires p.arrayDimensions == q.arrayDimensions
    ensures LosesNumber(p, q) <==> IsLossyNarrowing(p, q) || IntegerDigitsTrap(p, q)
    ensures !(IsLossyNarrowing(p, q) && IntegerDigitsTrap(p, q))
  {
    NamesAreUnique(types, p.builtin.value, q.builtin.value);
    if p.rawTypmods == q.rawTypmods {
      SameModifierSameLimit(p, q, types);
    }
    if NumericParamsOf(q).None? {
      UnlimitedLosesNothing(p, q);
    } else if NumericParamsOf(p).None? {
      LimitingLosesNumbers(p, q);
    } else {
      DigitsDecideLoss(p, q);
    }
  }

  // ------------------------------------------------- other types

  /** A value of an integer type of so many bits. */
  predicate InBits(bits: nat, v: int)
    requires bits > 0
  {
    -(Pow2(bits - 1) as int) <= v < Pow2(bits - 1)
  }

  function Pow2(n: nat): nat {
    if n == 0 then 1 else 2 * Pow2(n - 1)
  }

  lemma {:induction false} Pow2Grows(a: nat, b: nat)
    requires a < b
    ensures Pow2(a) < Pow2(b)
    decreases b
  {
    if a == b - 1 {
      Pow2Positive(a);
    } else {
      Pow2Grows(a, b - 1);
      Pow2Positive(b - 1);
    }
  }

  lemma {:induction false} Pow2Positive(n: nat)
    ensures Pow2(n) >= 1
  {
    if n > 0 {
      Pow2Positive(n - 1);
    }
  }

  predicate IsInteger(p: ParsedDataType) {
    p.builtin.Some? && p.builtin.value.fixedBits.Some? && p.builtin.value.fixedBits.value > 0 &&
    (IsNamed(p, "int2") || IsNamed(p, "int4") || IsNamed(p, "int8"))
  }

  /** Between integer types of equal dimension: lossy exactly when some integer no longer fits. */
  lemma IntegerLossyExactly(p: ParsedDataType, q: ParsedDataType)
    requires IsInteger(p) && IsInteger(q) && p.arrayDimensions == q.arrayDimensions
    requires CanonicalName(p) == CanonicalName(q) ==> p.builtin == q.builtin
    ensures IsLossyNarrowing(p, q) <==> exists v :: InBits(FixedBits(p).value, v) && !InBits(FixedBits(q).value, v)
  {
    var a, b := FixedBits(p).value, FixedBits(q).value;
    if b < a {
      Pow2Grows(b - 1, a - 1);
      assert InBits(a, Pow2(b - 1)) && !InBits(b, Pow2(b - 1));
    } else if a < b {
      Pow2Grows(a - 1, b - 1);
    }
  }

  /** Leaving text for another family is called lossy exactly when the text had a length; any
      other change without two fixed widths is not. */
  lemma FamilyChangeIsLossyForLimitedText(p: ParsedDataType, q: ParsedDataType)
    requires p.arrayDimensions == q.arrayDimensions && CanonicalName(p) != CanonicalName(q)
    requires !(FixedBits(p).Some? && FixedBits(q).Some?) && !IsTextLike(q) && !(IsExactNumeric(p) && IsExactNumeric(q))
    ensures IsLossyNarrowing(p, q) <==> IsTextLike(p) && CharacterLimit(p).Some?
  {
  }
}
