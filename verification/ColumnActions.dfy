/** Column actions on a relation: the column vector and the maps keyed by column name. */
module ColumnActions {
  import opened Collections
  import opened Identifiers
  import IndexDefinitions
  import opened TypeText

  type ExprIr = IndexDefinitions.ExprIr

  datatype Column = Column(name: string, dataType: Option<string>, typeId: Option<ObjectId>, isNullable: bool,
                           default_: Option<ExprIr>, avgWidth: Option<int>, defaultExprText: Option<string>,
                           typeModifier: Option<int>, storage: Option<string>, compression: Option<string>,
                           statisticsTarget: Option<int>, options: map<string, string>, generated: Option<bool>)

  datatype ColumnInheritance = ColumnInheritance(parentCount: nat, isLocal: bool)
  datatype IdentityGeneration = Always | ByDefault
  datatype GeneratedKind = Stored | Virtual
  datatype Generated = Generated(kind: GeneratedKind, expression: Option<string>)

  datatype Relation = Relation(columns: seq<Column>, inheritance: map<string, ColumnInheritance>,
                               identity: map<string, IdentityGeneration>, generated: map<string, Generated>)

  datatype ColumnAction =
    | Add(name: string, dataType: Option<string>, notNull: bool, default_: Option<ExprIr>)
    | Drop(name: string)
    | Rename(from_: string, to: string)
    | SetNotNull(name: string)
    | DropNotNull(name: string)
    | SetType(name: string, newType: string)
    | SetDefault(name: string, default_: Option<ExprIr>)
    | SetStorage(name: string, mode: string)
    | SetCompression(name: string, compression: Option<string>)
    | SetStatistics(name: string, target: Option<int>)
    | SetOptions(name: string, options: map<string, string>)
    | ResetOptions(name: string, names: seq<string>)

  function LowerAll(s: string): string {
    seq(|s|, i requires 0 <= i < |s| => Lower(s[i]))
  }

  /** `DEFAULT NULL` is no default. */
  function NormalizeDefault(d: Option<ExprIr>): Option<ExprIr> {
    if d.Some? && d.value.Literal? && LowerAll(Trim(d.value.text)) == "null" then None else d
  }

  /** The integer type behind a serial spelling. */
  function SerialType(dataType: Option<string>): Option<string> {
    if dataType.None? then None
    else
      var t := LowerAll(Trim(dataType.value));
      if t == "smallserial" || t == "serial2" then Some("smallint")
      else if t == "serial" || t == "serial4" then Some("integer")
      else if t == "bigserial" || t == "serial8" then Some("bigint")
      else None
  }

  function Created(name: string, dataType: Option<string>, notNull: bool, default_: Option<ExprIr>): Column {
    var serial := SerialType(dataType);
    Column(name, if serial.Some? then serial else dataType, None, !(notNull || serial.Some?),
           if serial.Some? then Some(IndexDefinitions.FunctionCall("nextval", [])) else NormalizeDefault(default_),
           None, None, None, None, None, None, map[], Some(false))
  }

  /** First column of a name. */
  function PositionOf(cs: seq<Column>, name: string): (r: Option<nat>)
    ensures r.Some? ==> r.value < |cs| && cs[r.value].name == name && forall i :: 0 <= i < r.value ==> cs[i].name != name
    ensures r.None? ==> forall i :: 0 <= i < |cs| ==> cs[i].name != name
  {
    if cs == [] then None
    else if cs[0].name == name then Some(0)
    else match PositionOf(cs[1..], name) case None => None case Some(i) => Some(i + 1)
  }

  predicate HasColumn(cs: seq<Column>, name: string) {
    exists i :: 0 <= i < |cs| && cs[i].name == name
  }

  function Without(cs: seq<Column>, name: string): seq<Column> {
    if cs == [] then []
    else var n := |cs| - 1; Without(cs[..n], name) + (if cs[n].name != name then [cs[n]] else [])
  }

  /** Change the first column of a name, if there is one. */
  function Edited(cs: seq<Column>, name: string, edit: Column -> Column): seq<Column> {
    match PositionOf(cs, name) case None => cs case Some(p) => cs[p := edit(cs[p])]
  }

  /** Move an entry to another key. */
  function Rekeyed<V>(m: map<string, V>, from_: string, to: string): map<string, V> {
    if from_ in m then (m - {from_})[to := m[from_]] else m
  }

  /** Rewriting a column name inside expression text belongs to the SQL parser; it may fail. */
  function Rewritten(m: map<string, Generated>, rewrite: string -> Option<string>): map<string, Generated> {
    map k | k in m :: m[k].(expression := if m[k].expression.Some? then rewrite(m[k].expression.value) else None)
  }

  function Applied(r: Relation, action: ColumnAction, rewrite: (string, string, string) -> Option<string>): Relation {
    match action
    case Add(name, dataType, notNull, default_) => Added(r, Created(name, dataType, notNull, default_))
    case Drop(name) => Dropped(r, name)
    case Rename(from_, to) => Renamed(r, from_, to, text => rewrite(text, from_, to))
    case _ => r.(columns := Edited(r.columns, action.name, SetterOf(action)))
  }

  function Added(r: Relation, c: Column): Relation {
    if HasColumn(r.columns, c.name) then r
    else r.(columns := r.columns + [c], inheritance := r.inheritance[c.name := ColumnInheritance(0, true)])
  }

  function Dropped(r: Relation, name: string): Relation {
    Relation(Without(r.columns, name), r.inheritance - {name}, r.identity - {name}, r.generated - {name})
  }

  function Renamed(r: Relation, from_: string, to: string, rewrite: string -> Option<string>): Relation {
    match PositionOf(r.columns, from_)
    case None => r
    case Some(p) =>
      if HasColumn(r.columns, to) then r
      else Relation(r.columns[p := r.columns[p].(name := to)], Rekeyed(r.inheritance, from_, to),
                    Rekeyed(r.identity, from_, to), Rewritten(Rekeyed(r.generated, from_, to), rewrite))
  }

  /** What a setter makes of the column it names. */
  function SetterOf(action: ColumnAction): Column -> Column
    requires !action.Add? && !action.Drop? && !action.Rename?
  {
    match action
    case SetNotNull(_) => (c: Column) => c.(isNullable := false)
    case DropNotNull(_) => (c: Column) => c.(isNullable := true)
    case SetType(_, newType) =>
      (c: Column) => c.(dataType := Some(newType), typeId := None, typeModifier := None,
                        avgWidth := None, storage := None, compression := None)
    case SetDefault(_, default_) => (c: Column) => c.(default_ := NormalizeDefault(default_), defaultExprText := None)
    case SetStorage(_, mode) =>
      (c: Column) => c.(storage := if LowerAll(mode) == "default" then None else Some(mode))
    case SetCompression(_, compression) => (c: Column) => c.(compression := compression)
    case SetStatistics(_, target) => (c: Column) => c.(statisticsTarget := target)
    case SetOptions(_, options) => (c: Column) => c.(options := c.options + options)
    case ResetOptions(_, names) => (c: Column) => c.(options := c.options - Elements(names))
  }

  // ------------------------------------------------- what every run keeps

  ghost predicate UniqueNames(cs: seq<Column>) {
    forall i, j :: 0 <= i < j < |cs| ==> cs[i].name != cs[j].name
  }

  /** Column names are unique and every keyed map names existing columns only. */
  ghost predicate Consistent(r: Relation) {
    && UniqueNames(r.columns)
    && (forall k :: k in r.inheritance || k in r.identity || k in r.generated ==> HasColumn(r.columns, k))
  }

  lemma {:induction false} WithoutMeaning(cs: seq<Column>, name: string)
    ensures forall c :: c in Without(cs, name) <==> c in cs && c.name != name
    ensures UniqueNames(cs) ==> UniqueNames(Without(cs, name))
  {
    if cs != [] {
      var n := |cs| - 1;
      WithoutMeaning(cs[..n], name);
      assert cs == cs[..n] + [cs[n]];
    }
  }

  lemma HasColumnIsMembership(cs: seq<Column>, name: string)
    ensures HasColumn(cs, name) <==> exists c :: c in cs && c.name == name
  {
    if c :| c in cs && c.name == name {
      var i :| 0 <= i < |cs| && cs[i] == c;
    }
  }

  lemma DropKeepsConsistent(r: Relation, name: string, rewrite: (string, string, string) -> Option<string>)
    requires Consistent(r)
    ensures Consistent(Applied(r, Drop(name), rewrite))
  {
    WithoutMeaning(r.columns, name);
    forall k | HasColumn(r.columns, k) && k != name ensures HasColumn(Without(r.columns, name), k) {
      HasColumnIsMembership(r.columns, k);
      HasColumnIsMembership(Without(r.columns, name), k);
    }
  }

  lemma RenameKeepsConsistent(r: Relation, from_: string, to: string, rewrite: (string, string, string) -> Option<string>)
    requires Consistent(r)
    ensures Consistent(Applied(r, Rename(from_, to), rewrite))
  {
    var found := PositionOf(r.columns, from_);
    if found.Some? && !HasColumn(r.columns, to) {
      var p := found.value;
      var cs := r.columns[p := r.columns[p].(name := to)];
      forall k | HasColumn(r.columns, k) && k != from_ ensures HasColumn(cs, k) {
        var i :| 0 <= i < |r.columns| && r.columns[i].name == k;
        assert cs[i].name == k;
      }
      assert cs[p].name == to;
    }
  }

  /** Every action keeps names unique and the maps inside the columns. */
  lemma ActionKeepsConsistent(r: Relation, action: ColumnAction, rewrite: (string, string, string) -> Option<string>)
    requires Consistent(r)
    ensures Consistent(Applied(r, action, rewrite))
  {
    match action {
      case Add(name, dataType, notNull, default_) =>
        var after := Applied(r, action, rewrite);
        if !HasColumn(r.columns, name) {
          assert after.columns[|r.columns|].name == name;
          forall k | HasColumn(r.columns, k) ensures HasColumn(after.columns, k) {
            var i :| 0 <= i < |r.columns| && r.columns[i].name == k;
            assert after.columns[i].name == k;
          }
        }
      case Drop(name) => DropKeepsConsistent(r, name, rewrite);
      case Rename(from_, to) => RenameKeepsConsistent(r, from_, to, rewrite);
      case _ => OtherActionsKeepNames(r, action, rewrite);
    }
  }

  lemma OtherActionsKeepNames(r: Relation, action: ColumnAction, rewrite: (string, string, string) -> Option<string>)
    requires Consistent(r) && !action.Add? && !action.Drop? && !action.Rename?
    ensures Consistent(Applied(r, action, rewrite))
  {
    var cs := Applied(r, action, rewrite).columns;
    assert |cs| == |r.columns| && forall i :: 0 <= i < |cs| ==> cs[i].name == r.columns[i].name;
    forall k | HasColumn(r.columns, k) ensures HasColumn(cs, k) {
      var i :| 0 <= i < |r.columns| && r.columns[i].name == k;
      assert cs[i].name == k;
    }
  }

  function AppliedAll(r: Relation, actions: seq<ColumnAction>, rewrite: (string, string, string) -> Option<string>): Relation
    decreases |actions|
  {
    if actions == [] then r else AppliedAll(Applied(r, actions[0], rewrite), actions[1..], rewrite)
  }

  lemma {:induction false} RunsKeepConsistent(r: Relation, actions: seq<ColumnAction>, rewrite: (string, string, string) -> Option<string>)
    requires Consistent(r)
    ensures Consistent(AppliedAll(r, actions, rewrite))
    decreases |actions|
  {
    if actions != [] {
      ActionKeepsConsistent(r, actions[0], rewrite);
      RunsKeepConsistent(Applied(r, actions[0], rewrite), actions[1..], rewrite);
    }
  }

  // ------------------------------------------------- what a setter leaves alone

  datatype Field =
    | TypeField | TypeIdField | NullableField | DefaultField | WidthField | DefaultTextField | ModifierField
    | StorageField | CompressionField | StatisticsField | OptionsField | GeneratedField

  /** The columns have one name and agree on every field outside `fields`. */
  predicate AgreeOutside(c: Column, d: Column, fields: set<Field>) {
    && c.name == d.name
    && (TypeField !in fields ==> c.dataType == d.dataType)
    && (TypeIdField !in fields ==> c.typeId == d.typeId)
    && (NullableField !in fields ==> c.isNullable == d.isNullable)
    && (DefaultField !in fields ==> c.default_ == d.default_)
    && (WidthField !in fields ==> c.avgWidth == d.avgWidth)
    && (DefaultTextField !in fields ==> c.defaultExprText == d.defaultExprText)
    && (ModifierField !in fields ==> c.typeModifier == d.typeModifier)
    && (StorageField !in fields ==> c.storage == d.storage)
    && (CompressionField !in fields ==> c.compression == d.compression)
    && (StatisticsField !in fields ==> c.statisticsTarget == d.statisticsTarget)
    && (OptionsField !in fields ==> c.options == d.options)
    && (GeneratedField !in fields ==> c.generated == d.generated)
  }

  /** The fields an action is about. A new type voids what was derived from the old one. */
  function FieldsOf(action: ColumnAction): set<Field> {
    match action
    case SetNotNull(_) | DropNotNull(_) => {NullableField}
    case SetType(_, _) => {TypeField, TypeIdField, ModifierField, WidthField, StorageField, CompressionField}
    case SetDefault(_, _) => {DefaultField, DefaultTextField}
    case SetStorage(_, _) => {StorageField}
    case SetCompression(_, _) => {CompressionField}
    case SetStatistics(_, _) => {StatisticsField}
    case SetOptions(_, _) | ResetOptions(_, _) => {OptionsField}
    case _ => {}
  }

  predicate IsSetter(action: ColumnAction) {
    !action.Add? && !action.Drop? && !action.Rename?
  }

  lemma SetterFrame(action: ColumnAction, c: Column)
    requires IsSetter(action)
    ensures AgreeOutside(SetterOf(action)(c), c, FieldsOf(action))
  {
  }

  lemma {:induction false} PositionByName(cs: seq<Column>, ds: seq<Column>, name: string)
    requires |cs| == |ds| && forall i :: 0 <= i < |cs| ==> cs[i].name == ds[i].name
    ensures PositionOf(cs, name) == PositionOf(ds, name)
  {
    if cs != [] && cs[0].name != name {
      PositionByName(cs[1..], ds[1..], name);
    }
  }

  /** A setter changes the column it names, in its own fields, and nothing else of the relation. */
  lemma SetterChangesOneColumn(r: Relation, action: ColumnAction, rewrite: (string, string, string) -> Option<string>)
    requires IsSetter(action)
    ensures var after := Applied(r, action, rewrite);
            && after == r.(columns := after.columns) && |after.columns| == |r.columns|
            && forall i :: 0 <= i < |r.columns| ==>
                 AgreeOutside(after.columns[i], r.columns[i], if PositionOf(r.columns, action.name) == Some(i) then FieldsOf(action) else {})
  {
    forall c ensures AgreeOutside(SetterOf(action)(c), c, FieldsOf(action)) {
      SetterFrame(action, c);
    }
  }

  lemma EditsCommute(cs: seq<Column>, a: string, f: Column -> Column, b: string, g: Column -> Column)
    requires a != b && (forall c :: f(c).name == c.name) && (forall c :: g(c).name == c.name)
    ensures Edited(Edited(cs, a, f), b, g) == Edited(Edited(cs, b, g), a, f)
  {
    PositionByName(Edited(cs, a, f), cs, b);
    PositionByName(Edited(cs, b, g), cs, a);
  }

  /** Setters of different columns can be exchanged. */
  lemma SettersCommute(r: Relation, x: ColumnAction, y: ColumnAction, rewrite: (string, string, string) -> Option<string>)
    requires IsSetter(x) && IsSetter(y) && x.name != y.name
    ensures Applied(Applied(r, x, rewrite), y, rewrite) == Applied(Applied(r, y, rewrite), x, rewrite)
  {
    forall c ensures SetterOf(x)(c).name == c.name && SetterOf(y)(c).name == c.name {
      SetterFrame(x, c);
      SetterFrame(y, c);
    }
    EditsCommute(r.columns, x.name, SetterOf(x), y.name, SetterOf(y));
  }

  // ------------------------------------------------- round trips

  /** Everything but the rewritten expression text. */
  ghost predicate SameButText(r: Relation, s: Relation) {
    && r.columns == s.columns && r.inheritance == s.inheritance && r.identity == s.identity
    && r.generated.Keys == s.generated.Keys && forall k :: k in r.generated ==> r.generated[k].kind == s.generated[k].kind
  }

  lemma RekeyBack<V>(m: map<string, V>, a: string, b: string)
    requires b !in m && a != b
    ensures Rekeyed(Rekeyed(m, a, b), b, a) == m
  {
  }

  /** Renaming a column to a free name and back restores columns and maps. */
  lemma RenameRoundTrip(r: Relation, a: string, b: string, rewrite: (string, string, string) -> Option<string>)
    requires Consistent(r) && !HasColumn(r.columns, b)
    ensures SameButText(r, Applied(Applied(r, Rename(a, b), rewrite), Rename(b, a), rewrite))
  {
    var found := PositionOf(r.columns, a);
    if found.None? {
      assert PositionOf(r.columns, b).None?;
    } else {
      var p := found.value;
      var mid := Applied(r, Rename(a, b), rewrite);
      assert mid.columns == r.columns[p := r.columns[p].(name := b)];
      assert PositionOf(mid.columns, b) == Some(p) by {
        assert mid.columns[p].name == b;
        assert forall i :: 0 <= i < |mid.columns| && i != p ==> mid.columns[i].name != b;
      }
      assert !HasColumn(mid.columns, a);
      var back := Applied(mid, Rename(b, a), rewrite);
      assert back.columns == r.columns;
      RekeyBack(r.inheritance, a, b);
      RekeyBack(r.identity, a, b);
      RekeyBack(r.generated, a, b);
      GeneratedComesBack(r.generated, a, b, text => rewrite(text, a, b), text => rewrite(text, b, a));
    }
  }

  lemma GeneratedComesBack(m: map<string, Generated>, a: string, b: string, there: string -> Option<string>, back: string -> Option<string>)
    requires b !in m && a != b
    ensures var n := Rewritten(Rekeyed(Rewritten(Rekeyed(m, a, b), there), b, a), back);
            n.Keys == m.Keys && forall k :: k in m ==> n[k].kind == m[k].kind
  {
  }

  lemma {:induction false} WithoutAbsent(cs: seq<Column>, name: string)
    requires forall c :: c in cs ==> c.name != name
    ensures Without(cs, name) == cs
  {
    if cs != [] {
      var n := |cs| - 1;
      PrefixGrows(cs, n);
      WholePrefix(cs);
      WithoutAbsent(cs[..n], name);
    }
  }

  lemma WithoutAppended(cs: seq<Column>, c: Column)
    requires !HasColumn(cs, c.name)
    ensures Without(cs + [c], c.name) == cs
  {
    assert (cs + [c])[..|cs|] == cs;
    HasColumnIsMembership(cs, c.name);
    WithoutAbsent(cs, c.name);
  }

  /** Adding an absent column and dropping it again restores the relation. */
  lemma AddDropRoundTrip(r: Relation, name: string, dataType: Option<string>, notNull: bool, default_: Option<ExprIr>,
                         rewrite: (string, string, string) -> Option<string>)
    requires Consistent(r) && !HasColumn(r.columns, name)
    ensures Applied(Applied(r, Add(name, dataType, notNull, default_), rewrite), Drop(name), rewrite) == r
  {
    AppendDropRestores(r, Created(name, dataType, notNull, default_), rewrite);
  }

  lemma AppendDropRestores(r: Relation, c: Column, rewrite: (string, string, string) -> Option<string>)
    requires Consistent(r) && !HasColumn(r.columns, c.name)
    ensures Applied(r.(columns := r.columns + [c], inheritance := r.inheritance[c.name := ColumnInheritance(0, true)]),
                    Drop(c.name), rewrite) == r
  {
    WithoutAppended(r.columns, c);
    assert c.name !in r.inheritance && c.name !in r.identity && c.name !in r.generated;
    assert r.inheritance[c.name := ColumnInheritance(0, true)] - {c.name} == r.inheritance;
    assert r.identity - {c.name} == r.identity && r.generated - {c.name} == r.generated;
  }

  // ------------------------------------------------- the mutable relation

  class RelationState {
    var columns: seq<Column>
    var columnInheritance: map<string, ColumnInheritance>
    var identityColumns: map<string, IdentityGeneration>
    var generatedColumns: map<string, Generated>

    function Value(): Relation
      reads this
    {
      Relation(columns, columnInheritance, identityColumns, generatedColumns)
    }

    constructor ()
      ensures Value() == Relation([], map[], map[], map[])
    {
      columns, columnInheritance, identityColumns, generatedColumns := [], map[], map[], map[];
    }

    /** Every action does what its value-level form says, and so keeps a consistent relation consistent. */
    method ApplyColumnAction(action: ColumnAction, rewrite: (string, string, string) -> Option<string>)
      modifies this
      ensures Value() == Applied(old(Value()), action, rewrite)
      ensures old(Consistent(Value())) ==> Consistent(Value())
    {
      ghost var before := Value();
      match action {
        case Add(name, dataType, notNull, default_) =>
          AddColumn(Created(name, dataType, notNull, default_));
        case Drop(name) => DropColumn(name);
        case Rename(from_, to) => RenameColumn(from_, to, text => rewrite(text, from_, to));
        case _ => EditFound(action);
      }
      assert Value() == Applied(before, action, rewrite);
      if Consistent(before) {
        ActionKeepsConsistent(before, action, rewrite);
      }
    }

    method AddColumn(column: Column)
      modifies this
      ensures Value() == Added(old(Value()), column)
    {
      var present := FindColumn(column.name);
      if present.None? {
        columns := columns + [column];
        columnInheritance := columnInheritance[column.name := ColumnInheritance(0, true)];
      }
    }

    method DropColumn(name: string)
      modifies this
      ensures Value() == Dropped(old(Value()), name)
    {
      RetainColumns(name);
      columnInheritance := columnInheritance - {name};
      identityColumns := identityColumns - {name};
      generatedColumns := generatedColumns - {name};
    }

    method EditFound(action: ColumnAction)
      requires !action.Add? && !action.Drop? && !action.Rename?
      modifies this`columns
      ensures columns == Edited(old(columns), action.name, SetterOf(action))
    {
      var p := FindColumn(action.name);
      if p.Some? {
        var c := EditColumn(columns[p.value], action);
        columns := columns[p.value := c];
      }
    }

    method RetainColumns(name: string)
      modifies this`columns
      ensures columns == Without(old(columns), name)
    {
      var kept: seq<Column> := [];
      for i := 0 to |columns|
        invariant columns == old(columns) && kept == Without(columns[..i], name)
      {
        assert columns[..i + 1][..i] == columns[..i];
        if columns[i].name != name {
          kept := kept + [columns[i]];
        }
      }
      assert columns[..|columns|] == columns;
      columns := kept;
    }

    method RenameColumn(from_: string, to: string, rewrite: string -> Option<string>)
      modifies this
      ensures Value() == Renamed(old(Value()), from_, to, rewrite)
    {
      var p := FindColumn(from_);
      var taken := FindColumn(to);
      if p.Some? && taken.None? {
        columns := columns[p.value := columns[p.value].(name := to)];
        columnInheritance := Rekeyed(columnInheritance, from_, to);
        identityColumns := Rekeyed(identityColumns, from_, to);
        generatedColumns := Rekeyed(generatedColumns, from_, to);
        generatedColumns := Rewritten(generatedColumns, rewrite);
      }
    }

    /** What the setters do to the column they found. */
    method EditColumn(column: Column, action: ColumnAction) returns (c: Column)
      requires !action.Add? && !action.Drop? && !action.Rename?
      ensures c == SetterOf(action)(column) && AgreeOutside(c, column, FieldsOf(action))
    {
      c := column;
      match action {
        case SetNotNull(_) => c := c.(isNullable := false);
        case DropNotNull(_) => c := c.(isNullable := true);
        case SetType(_, newType) =>
          c := c.(dataType := Some(newType), typeId := None, typeModifier := None);
          c := c.(avgWidth := None, storage := None, compression := None);
        case SetDefault(_, default_) =>
          c := c.(default_ := NormalizeDefault(default_), defaultExprText := None);
        case SetStorage(_, mode) => c := c.(storage := if LowerAll(mode) == "default" then None else Some(mode));
        case SetCompression(_, compression) => c := c.(compression := compression);
        case SetStatistics(_, target) => c := c.(statisticsTarget := target);
        case SetOptions(_, options) => c := c.(options := c.options + options);
        case ResetOptions(_, names) =>
          for i := 0 to |names|
            invariant c == column.(options := column.options - Elements(names[..i]))
          {
            assert names[..i + 1] == names[..i] + [names[i]];
            c := c.(options := c.options - {names[i]});
          }
          assert names[..|names|] == names;
      }
    }

    method FindColumn(name: string) returns (p: Option<nat>)
      ensures p == PositionOf(columns, name) && (p.Some? <==> HasColumn(columns, name))
    {
      for i := 0 to |columns|
        invariant forall k :: 0 <= k < i ==> columns[k].name != name
      {
        if columns[i].name == name {
          return Some(i);
        }
      }
      p := None;
    }
  }
}
