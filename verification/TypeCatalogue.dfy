/** The built-in type catalogue: sorted by name, resolved by name, alias or canonical spelling. */
module TypeCatalogue {
  import opened Collections
  import opened TextOrder

  datatype TypeCategory =
    | Array | Boolean | Composite | DateTime | Enum | Geometric | Network | Numeric | Pseudo | Range | String
    | Timespan | User | BitString | Internal | UnknownCategory

  datatype BuiltinType = BuiltinType(typname: string, canonical: string, category: TypeCategory, fixedBits: Option<int>,
                                     acceptsTypmod: bool, collatable: bool)

  /** Grammar spellings that stand for a catalog name. */
  const TYPE_ALIASES: map<string, string> := map[
    "int" := "int4", "integer" := "int4", "smallint" := "int2", "bigint" := "int8", "real" := "float4",
    "float" := "float8", "double precision" := "float8", "decimal" := "numeric", "dec" := "numeric",
    "bit varying" := "varbit", "char" := "bpchar", "character" := "bpchar", "character varying" := "varchar",
    "national character" := "bpchar", "national char" := "bpchar", "nchar" := "bpchar", "nchar varying" := "varchar",
    "national character varying" := "varchar", "national char varying" := "varchar",
    "timestamp without time zone" := "timestamp", "timestamp with time zone" := "timestamptz",
    "time without time zone" := "time", "time with time zone" := "timetz"]

  function GrammarAlias(name: string): string {
    if name in TYPE_ALIASES then TYPE_ALIASES[name] else name
  }

  ghost predicate SortedByName(types: seq<BuiltinType>) {
    forall i, j :: 0 <= i < j < |types| ==> Before(types[i].typname, types[j].typname)
  }

  /** First entry with that catalog name. */
  function ByTypname(types: seq<BuiltinType>, typname: string): (r: Option<BuiltinType>)
    ensures r.Some? ==> r.value in types && r.value.typname == typname
    ensures r.None? ==> forall t :: t in types ==> t.typname != typname
  {
    if types == [] then None else if types[0].typname == typname then Some(types[0]) else ByTypname(types[1..], typname)
  }

  function ByCanonical(types: seq<BuiltinType>, name: string): (r: Option<BuiltinType>)
    ensures r.Some? ==> r.value in types && r.value.canonical == name
    ensures r.None? ==> forall t :: t in types ==> t.canonical != name
  {
    if types == [] then None else if types[0].canonical == name then Some(types[0]) else ByCanonical(types[1..], name)
  }

  /** What a written name denotes. */
  function ResolveType(types: seq<BuiltinType>, name: string): (r: Option<BuiltinType>)
    ensures r.Some? ==> r.value in types && (r.value.typname == GrammarAlias(name) || r.value.canonical == name)
  {
    var named := ByTypname(types, GrammarAlias(name));
    if named.Some? then named else ByCanonical(types, name)
  }

  lemma NamesAreUnique(types: seq<BuiltinType>, a: BuiltinType, b: BuiltinType)
    requires SortedByName(types) && a in types && b in types && a.typname == b.typname
    ensures a == b
  {
    BeforeIsStrict(a.typname);
  }

  lemma LowerHalfMisses(types: seq<BuiltinType>, mid: nat, typname: string)
    requires SortedByName(types) && mid < |types| && Before(types[mid].typname, typname)
    ensures forall i :: 0 <= i <= mid ==> types[i].typname != typname
  {
    BeforeIsStrict(typname);
    forall i | 0 <= i < mid ensures types[i].typname != typname {
      if types[i].typname == typname {
        BeforeIsTransitive(typname, types[mid].typname, typname);
      }
    }
  }

  lemma UpperHalfMisses(types: seq<BuiltinType>, mid: nat, typname: string)
    requires SortedByName(types) && mid < |types| && !Before(types[mid].typname, typname) && types[mid].typname != typname
    ensures forall i :: mid <= i < |types| ==> types[i].typname != typname
  {
  }

  /** Binary search in the order of the names. */
  method FindByName(types: seq<BuiltinType>, typname: string) returns (r: Option<BuiltinType>)
    requires SortedByName(types)
    ensures r == ByTypname(types, typname)
  {
    var lo, hi := 0, |types|;
    while lo < hi
      invariant 0 <= lo <= hi <= |types|
      invariant forall i :: 0 <= i < lo ==> types[i].typname != typname
      invariant forall i :: hi <= i < |types| ==> types[i].typname != typname
    {
      var mid := (lo + hi) / 2;
      if types[mid].typname == typname {
        NamedAt(types, mid);
        return Some(types[mid]);
      }
      if Before(types[mid].typname, typname) {
        LowerHalfMisses(types, mid, typname);
        lo := mid + 1;
      } else {
        UpperHalfMisses(types, mid, typname);
        hi := mid;
      }
    }
    r := None;
  }

  lemma NamedAt(types: seq<BuiltinType>, i: nat)
    requires SortedByName(types) && i < |types|
    ensures ByTypname(types, types[i].typname) == Some(types[i])
  {
    NamesAreUnique(types, types[i], ByTypname(types, types[i].typname).value);
  }

  /** Binary search by name, then a scan by canonical spelling. */
  method Resolve(types: seq<BuiltinType>, name: string) returns (r: Option<BuiltinType>)
    requires SortedByName(types)
    ensures r == ResolveType(types, name)
  {
    r := FindByName(types, GrammarAlias(name));
    if r.Some? {
      return;
    }
    for i := 0 to |types|
      invariant r.None? && ByCanonical(types, name) == ByCanonical(types[i..], name)
    {
      if types[i].canonical == name {
        return Some(types[i]);
      }
    }
  }

  /** Sort by name, keeping the first entry of each name. */
  method New(types: seq<BuiltinType>) returns (sorted: seq<BuiltinType>)
    ensures SortedByName(sorted)
    ensures forall n :: ByTypname(sorted, n) == ByTypname(types, n)
  {
    sorted := [];
    for i := 0 to |types|
      invariant SortedByName(sorted)
      invariant forall n :: ByTypname(sorted, n) == ByTypname(types[..i], n)
    {
      var t := types[i];
      assert types[..i + 1] == types[..i] + [t];
      forall n {
        FirstOfConcat(types[..i], [t], n);
      }
      var k := |sorted|;
      while k > 0 && Before(t.typname, sorted[k - 1].typname)
        invariant 0 <= k <= |sorted|
        invariant forall j :: k <= j < |sorted| ==> Before(t.typname, sorted[j].typname)
      {
        k := k - 1;
      }
      if k == 0 || sorted[k - 1].typname != t.typname {
        InsertKeepsOrder(sorted, k, t);
        forall n {
          InsertKeepsNames(sorted, k, t, n);
        }
        sorted := sorted[..k] + [t] + sorted[k..];
      } else {
        assert sorted[k - 1] in sorted;
      }
    }
    assert types[..|types|] == types;
  }

  lemma {:induction false} FirstOfConcat(a: seq<BuiltinType>, b: seq<BuiltinType>, n: string)
    ensures ByTypname(a + b, n) == if ByTypname(a, n).Some? then ByTypname(a, n) else ByTypname(b, n)
  {
    if a == [] {
      assert a + b == b;
    } else {
      assert (a + b)[1..] == a[1..] + b;
      FirstOfConcat(a[1..], b, n);
    }
  }

  lemma InsertKeepsOrder(s: seq<BuiltinType>, k: nat, t: BuiltinType)
    requires SortedByName(s) && k <= |s|
    requires forall j :: k <= j < |s| ==> Before(t.typname, s[j].typname)
    requires k > 0 ==> !Before(t.typname, s[k - 1].typname) && s[k - 1].typname != t.typname
    ensures SortedByName(s[..k] + [t] + s[k..])
    ensures forall e :: e in s ==> e.typname != t.typname
  {
    forall j | 0 <= j < k ensures Before(s[j].typname, t.typname) {
      BeforeIsTotal(s[k - 1].typname, t.typname);
      if j < k - 1 {
        BeforeIsTransitive(s[j].typname, s[k - 1].typname, t.typname);
      }
    }
    BeforeIsStrict(t.typname);
  }

  lemma InsertKeepsNames(s: seq<BuiltinType>, k: nat, t: BuiltinType, n: string)
    requires k <= |s| && forall e :: e in s ==> e.typname != t.typname
    ensures ByTypname(s[..k] + [t] + s[k..], n) == if ByTypname(s, n).Some? then ByTypname(s, n) else ByTypname([t], n)
  {
    assert s == s[..k] + s[k..];
    FirstOfConcat(s[..k], s[k..], n);
    FirstOfConcat(s[..k] + [t], s[k..], n);
    FirstOfConcat(s[..k], [t], n);
  }

  lemma SameNamesSameEntries(a: seq<BuiltinType>, b: seq<BuiltinType>)
    requires SortedByName(a) && SortedByName(b) && forall n :: ByTypname(a, n) == ByTypname(b, n)
    ensures Elements(a) == Elements(b)
  {
    forall t ensures t in a <==> t in b {
      if t in a {
        var f := ByTypname(a, t.typname).value;
        NamesAreUnique(a, t, f);
      }
      if t in b {
        var f := ByTypname(b, t.typname).value;
        NamesAreUnique(b, t, f);
      }
    }
  }

  /** A catalogue is determined by the entry each name has, whatever the input order was. */
  lemma {:induction false} CatalogueIsCanonical(a: seq<BuiltinType>, b: seq<BuiltinType>)
    requires SortedByName(a) && SortedByName(b) && Elements(a) == Elements(b)
    ensures a == b
    decreases |a|
  {
    if a == [] {
      assert forall i :: 0 <= i < |b| ==> b[i] in Elements(b);
    } else {
      assert a[0] in Elements(a) && b != [] && b[0] in Elements(b);
      var i :| 0 <= i < |b| && b[i] == a[0];
      var j :| 0 <= j < |a| && a[j] == b[0];
      if i > 0 && j > 0 {
        BeforeIsTransitive(a[0].typname, b[0].typname, a[0].typname);
        BeforeIsStrict(a[0].typname);
      }
      assert a[0] == b[0];
      forall x ensures x in a[1..] <==> x in b[1..] {
        BeforeIsStrict(a[0].typname);
        assert a == [a[0]] + a[1..] && b == [b[0]] + b[1..];
        assert x in Elements(a) <==> x in Elements(b);
      }
      CatalogueIsCanonical(a[1..], b[1..]);
      assert a == [a[0]] + a[1..] && b == [b[0]] + b[1..];
    }
  }
}
