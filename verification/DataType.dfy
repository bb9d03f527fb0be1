/** Parsed type declarations: classification of modifiers, their packed encoding and rendering. */
module DataType {
  import opened Collections
  import opened TypeText
  import opened TypeCatalogue

  datatype TypmodKind = NoTypmod | CharacterTypmod | BitTypmod | NumericTypmod | SecondsTypmod | IntervalTypmod

  /** What a modifier means for each type that accepts one. */
  function TypmodKindOf(typname: string): TypmodKind {
    match typname
    case "bit" => BitTypmod
    case "bpchar" => CharacterTypmod
    case "interval" => IntervalTypmod
    case "numeric" => NumericTypmod
    case "time" => SecondsTypmod
    case "timestamp" => SecondsTypmod
    case "timestamptz" => SecondsTypmod
    case "timetz" => SecondsTypmod
    case "varbit" => BitTypmod
    case "varchar" => CharacterTypmod
    case _ => NoTypmod
  }

  const MAX_CHAR_LENGTH := 10_485_760
  const VARHDRSZ := 4
  const MAX_NUMERIC_PRECISION := 1_000
  const MAX_NUMERIC_SCALE := 1_000

  type CharLength = n: int | 1 <= n <= MAX_CHAR_LENGTH witness 1
  type NumericPrecision = n: int | 1 <= n <= MAX_NUMERIC_PRECISION witness 1
  type NumericScale = n: int | -MAX_NUMERIC_SCALE <= n <= MAX_NUMERIC_SCALE

  /** How the server reads a declared modifier. */
  datatype TypeTypmod =
    | NotApplicable
    | Unbounded
    | CharacterLength(length: CharLength)
    | NumericParams(precision: NumericPrecision, scale: Option<NumericScale>)
    | OutOfRange

  datatype ParsedDataType = ParsedDataType(builtin: Option<BuiltinType>, originalBase: string, rawTypmods: Option<string>,
                                           arrayDimensions: nat, typmod: TypeTypmod)

  /** The names that carry a length of one when none is written. */
  predicate ImpliesLengthOne(written: string) {
    written == "char" || written == "character" || written == "bit"
  }

  function ClassifyLength(raw: string): TypeTypmod {
    var n := ParseI32(Trim(raw));
    if n.Some? && 1 <= n.value <= MAX_CHAR_LENGTH then CharacterLength(n.value) else OutOfRange
  }

  function ClassifyNumeric(raw: string): TypeTypmod {
    var comma := FirstIndexOf(raw, ',');
    var p := ParseI32(Trim(if comma.Some? then raw[..comma.value] else raw));
    if !(p.Some? && 1 <= p.value <= MAX_NUMERIC_PRECISION) then OutOfRange
    else if comma.None? then NumericParams(p.value, None)
    else
      var s := ParseI32(Trim(raw[comma.value + 1..]));
      if s.Some? && -MAX_NUMERIC_SCALE <= s.value <= MAX_NUMERIC_SCALE then NumericParams(p.value, Some(s.value)) else OutOfRange
  }

  function ClassifyTypmod(builtin: Option<BuiltinType>, written: string, raw: Option<string>): TypeTypmod {
    if builtin.None? then (if raw.None? then NotApplicable else OutOfRange)
    else
      var typname := builtin.value.typname;
      match TypmodKindOf(typname)
      case CharacterTypmod | BitTypmod =>
        if raw.Some? then ClassifyLength(raw.value)
        else if (typname == "bpchar" || typname == "bit") && ImpliesLengthOne(written) then CharacterLength(1)
        else Unbounded
      case NumericTypmod => if raw.Some? then ClassifyNumeric(raw.value) else Unbounded
      case SecondsTypmod | IntervalTypmod => if raw.Some? then Unbounded else NotApplicable
      case NoTypmod => if raw.Some? then OutOfRange else NotApplicable
  }

  // ------------------------------------------------- parsing

  function StripPgCatalog(name: string): string {
    if "pg_catalog." <= name then name[11..]
    else if "\"pg_catalog\"." <= name then name[13..]
    else name
  }

  /** Which floating-point type a binary precision asks for. */
  function FloatPrecision(raw: string): Option<string> {
    var n := ParseU32(Trim(raw));
    if n.Some? && 1 <= n.value <= 24 then Some("real")
    else if n.Some? && 25 <= n.value <= 53 then Some("double precision")
    else None
  }

  /** `serial` is grammar over an integer type. */
  function ExpandSerial(name: string): string {
    match name
    case "serial" => "integer"
    case "serial4" => "integer"
    case "bigserial" => "bigint"
    case "serial8" => "bigint"
    case "smallserial" => "smallint"
    case "serial2" => "smallint"
    case _ => name
  }

  /** The name that is looked up, and the modifier that stays, for a qualified declaration. */
  function LookedUp(d: Declared): (string, Option<string>) {
    var name := StripPgCatalog(d.text);
    if name == "float" && d.mods.Some? && FloatPrecision(d.mods.value).Some?
    then (ExpandSerial(FloatPrecision(d.mods.value).value), None)
    else (ExpandSerial(name), d.mods)
  }

  function ParseFolded(folded: string, types: seq<BuiltinType>): ParsedDataType {
    var stripped := StripArrays(folded);
    var d := SplitModifier(stripped.text);
    var (name, mods) := LookedUp(d);
    var builtin := ResolveType(types, name);
    ParsedDataType(builtin, ExpandSerial(StripPgCatalog(d.base)), mods, stripped.dimensions, ClassifyTypmod(builtin, name, mods))
  }

  function Parsed(raw: string, types: seq<BuiltinType>): ParsedDataType {
    ParseFolded(Fold(Trim(raw), false), types)
  }

  method Parse(raw: string, types: seq<BuiltinType>) returns (r: ParsedDataType)
    requires SortedByName(types)
    ensures r == Parsed(raw, types)
  {
    var text := FoldUnquotedIdentifierCase(Trim(raw));
    ghost var folded := text;
    var dimensions := 0;
    while EndsWithArray(text)
      invariant StripArrays(folded).text == StripArrays(text).text
      invariant StripArrays(folded).dimensions == StripArrays(text).dimensions + dimensions
      decreases |text|
    {
      TrimShrinks(text[..|text| - 2]);
      text := Trim(text[..|text| - 2]);
      dimensions := dimensions + 1;
    }
    var d := SplitModifier(text);
    var (name, mods) := LookedUp(d);
    var builtin := Resolve(types, name);
    r := ParsedDataType(builtin, ExpandSerial(StripPgCatalog(d.base)), mods, dimensions, ClassifyTypmod(builtin, name, mods));
  }

  // ------------------------------------------------- accessors

  function CanonicalName(p: ParsedDataType): string {
    if p.builtin.Some? then p.builtin.value.canonical else p.originalBase
  }

  predicate IsNamed(p: ParsedDataType, typname: string) {
    p.builtin.Some? && p.builtin.value.typname == typname
  }

  predicate IsTextLike(p: ParsedDataType) {
    p.builtin.Some? && p.builtin.value.category == String && p.builtin.value.typname != "name"
  }

  predicate IsExactNumeric(p: ParsedDataType) {
    IsNamed(p, "numeric")
  }

  function CharacterLimit(p: ParsedDataType): Option<int> {
    if p.typmod.CharacterLength? then Some(p.typmod.length) else None
  }

  /** Precision and scale; `numeric(p)` has scale zero. */
  function NumericParamsOf(p: ParsedDataType): Option<(int, int)> {
    if p.typmod.NumericParams?
    then Some((p.typmod.precision, if p.typmod.scale.Some? then p.typmod.scale.value else 0))
    else None
  }

  predicate IsValidDeclaration(p: ParsedDataType) {
    p.typmod != OutOfRange
  }

  // ------------------------------------------------- the packed encoding

  /** The low eleven bits of a two's-complement integer. */
  function ScaleBits(scale: int): (r: nat)
    ensures r < 2048
  {
    scale % 2048
  }

  /** 32-bit addition that refuses to overflow. */
  function CheckedAdd(a: int, b: int): Option<int> {
    if -0x8000_0000 <= a + b < 0x8000_0000 then Some(a + b) else None
  }

  /** The modifier the server stores. Precision sits above bit sixteen, so joining the
      two parts is an addition. */
  function AttTypmod(p: ParsedDataType): Option<int> {
    match p.typmod
    case CharacterLength(length) => Some(length + VARHDRSZ)
    case NumericParams(precision, scale) =>
      CheckedAdd(precision * 65536 + ScaleBits(if scale.Some? then scale.value else 0), VARHDRSZ)
    case _ => None
  }

  function DecodePrecision(typmod: int): int {
    (typmod - VARHDRSZ) / 65536
  }

  /** Eleven bits, sign-extended. */
  function DecodeScale(typmod: int): int {
    var low := (typmod - VARHDRSZ) % 2048;
    if low >= 1024 then low - 2048 else low
  }

  /** The stored modifier is a positive 32-bit integer and gives back exactly what was
      declared; a declaration the server rejects stores nothing. */
  lemma EncodingRoundTrips(p: ParsedDataType)
    ensures IsTyped(p.typmod) <==> AttTypmod(p).Some?
    ensures AttTypmod(p).Some? ==> 0 < AttTypmod(p).value < 0x8000_0000
    ensures p.typmod.CharacterLength? ==> CharacterLimit(p) == Some(AttTypmod(p).value - VARHDRSZ)
    ensures p.typmod.NumericParams? ==>
              NumericParamsOf(p) == Some((DecodePrecision(AttTypmod(p).value), DecodeScale(AttTypmod(p).value)))
  {
    if p.typmod.NumericParams? {
      var scale := if p.typmod.scale.Some? then p.typmod.scale.value else 0;
      PackedPartsSeparate(p.typmod.precision, scale);
    }
  }

  predicate IsTyped(t: TypeTypmod) {
    t.CharacterLength? || t.NumericParams?
  }

  lemma PackedPartsSeparate(precision: int, scale: int)
    requires 1 <= precision <= MAX_NUMERIC_PRECISION && -MAX_NUMERIC_SCALE <= scale <= MAX_NUMERIC_SCALE
    ensures var packed := precision * 65536 + ScaleBits(scale);
            && packed / 65536 == precision
            && packed % 2048 == ScaleBits(scale)
            && (if packed % 2048 >= 1024 then packed % 2048 - 2048 else packed % 2048) == scale
  {
    var bits := ScaleBits(scale);
    assert bits == if scale >= 0 then scale else scale + 2048;
    var packed := precision * 65536 + bits;
    assert packed == (precision * 32) * 2048 + bits;
  }

  /** On 32-bit words, shifting, masking and joining are the product, remainder and sum above;
      shifting back and sign-extending the low eleven bits give both parts back. */
  lemma PackedWord(precision: bv32, scale: bv32)
    requires 1 <= precision <= 1000 && (scale <= 1000 || scale >= 0xffff_fc18)
    ensures var packed := ((precision << 16) | (scale & 0x7ff)) + 4;
            && packed == precision * 65536 + scale % 2048 + 4
            && 0 < packed < 0x8000_0000
            && (packed - 4) >> 16 == precision
            && (((packed - 4) & 0x7ff) ^ 0x400) - 0x400 == scale
  {
  }

  // ------------------------------------------------- identity and rendering

  const WITHOUT_TZ := " without time zone"
  const WITH_TZ := " with time zone"

  predicate HasSuffix(s: string, suffix: string) {
    |suffix| <= |s| && s[|s| - |suffix|..] == suffix
  }

  /** The canonical spelling, split before a timezone qualifier. */
  function SplitTimeZone(name: string): (r: (string, string))
    ensures r.0 + r.1 == name
  {
    if HasSuffix(name, WITHOUT_TZ) then (name[..|name| - |WITHOUT_TZ|], WITHOUT_TZ)
    else if HasSuffix(name, WITH_TZ) then (name[..|name| - |WITH_TZ|], WITH_TZ)
    else (name, "")
  }

  /** The name a declaration renders with. Bare `character` means one character, so an
      unlimited one keeps its catalog spelling. */
  function RenderedName(p: ParsedDataType): string {
    if IsNamed(p, "bpchar") && p.typmod == Unbounded then "bpchar" else CanonicalName(p)
  }

  function RenderedMods(p: ParsedDataType): Option<string> {
    if p.rawTypmods.Some? then p.rawTypmods
    else if p.typmod == CharacterLength(1) then Some("1")
    else None
  }

  function Rendered(name: string, mods: Option<string>, dimensions: nat): string {
    var (base, tz) := SplitTimeZone(name);
    base + (if mods.Some? then "(" + mods.value + ")" else "") + tz + ArraySuffix(dimensions)
  }

  function Display(p: ParsedDataType): string {
    Rendered(RenderedName(p), RenderedMods(p), p.arrayDimensions)
  }

  /** `format_type(oid, NULL)`: no modifier, and one array suffix however many were written. */
  function Identity(p: ParsedDataType): string {
    CanonicalName(p) + (if p.arrayDimensions > 0 then "[]" else "")
  }
}
