/** What each column action makes of a relation, field by field. */
module ColumnMeaning {
  import opened Collections
  import opened TypeText
  import opened ColumnActions
  import IndexDefinitions

  type Rewrite = (string, string, string) -> Option<string>

  // ------------------------------------------------- words in any case

  /** `s` is the word, in any mixture of its small and capital letters. */
  predicate Says(s: string, small: string, capital: string)
    requires |small| == |capital|
  {
    |s| == |small| && forall i :: 0 <= i < |s| ==> s[i] == small[i] || s[i] == capital[i]
  }

  predicate IsCapitalOf(small: string, capital: string) {
    |small| == |capital| && forall i :: 0 <= i < |small| ==>
      && (('a' <= small[i] <= 'z' && capital[i] as int + 32 == small[i] as int) ||
          (small[i] == capital[i] && !('a' <= small[i] <= 'z') && !('A' <= small[i] <= 'Z')))
  }

  lemma LowerMeansSays(s: string, small: string, capital: string)
    requires IsCapitalOf(small, capital)
    ensures LowerAll(s) == small <==> Says(s, small, capital)
  {
    if Says(s, small, capital) {
      assert forall i :: 0 <= i < |s| ==> Lower(s[i]) == small[i];
    }
    if LowerAll(s) == small {
      forall i | 0 <= i < |s| ensures s[i] == small[i] || s[i] == capital[i] {
        assert Lower(s[i]) == LowerAll(s)[i] == small[i];
      }
    }
  }

  // ------------------------------------------------- setters

  /** The column a setter found has exactly the value the action names; a setter of an unknown
      name does nothing. */
  lemma SetterValues(r: Relation, action: ColumnAction, rewrite: Rewrite)
    requires IsSetter(action)
    ensures !HasColumn(r.columns, action.name) ==> Applied(r, action, rewrite) == r
    ensures HasColumn(r.columns, action.name) ==>
              var p := PositionOf(r.columns, action.name).value;
              var after := Applied(r, action, rewrite).columns;
              && p < |after| == |r.columns| && r.columns[p].name == action.name
              && ColumnAfter(r.columns[p], action, after[p])
  {
    if HasColumn(r.columns, action.name) {
      SetterValue(r.columns[PositionOf(r.columns, action.name).value], action);
    }
  }

  /** The new value of every field an action is about. */
  ghost predicate ColumnAfter(o: Column, action: ColumnAction, c: Column) {
    match action
    case SetNotNull(_) => c.isNullable == false
    case DropNotNull(_) => c.isNullable == true
    case SetType(_, newType) =>
      c.dataType == Some(newType) && c.typeId == None && c.typeModifier == None && c.avgWidth == None &&
      c.storage == None && c.compression == None
    case SetDefault(_, d) => (c.default_ == if IsNullLiteral(d) then None else d) && c.defaultExprText == None
    case SetStorage(_, mode) => c.storage == if Says(mode, "default", "DEFAULT") then None else Some(mode)
    case SetCompression(_, compression) => c.compression == compression
    case SetStatistics(_, target) => c.statisticsTarget == target
    case SetOptions(_, options) =>
      forall k :: (k in c.options <==> k in o.options || k in options) &&
                  (k in options ==> c.options[k] == options[k]) &&
                  (k in o.options && k !in options ==> c.options[k] == o.options[k])
    case ResetOptions(_, names) =>
      forall k :: (k in c.options <==> k in o.options && k !in names) && (k in c.options ==> c.options[k] == o.options[k])
    case _ => true
  }

  predicate IsNullLiteral(d: Option<ExprIr>) {
    d.Some? && d.value.Literal? && Says(Trim(d.value.text), "null", "NULL")
  }

  lemma NullIsNoDefault(d: Option<ExprIr>)
    ensures NormalizeDefault(d) == if IsNullLiteral(d) then None else d
  {
    if d.Some? && d.value.Literal? {
      LowerMeansSays(Trim(d.value.text), "null", "NULL");
    }
  }

  lemma StorageWord(mode: string)
    ensures LowerAll(mode) == "default" <==> Says(mode, "default", "DEFAULT")
  {
    LowerMeansSays(mode, "default", "DEFAULT");
  }

  lemma SetterValue(o: Column, action: ColumnAction)
    requires IsSetter(action)
    ensures ColumnAfter(o, action, SetterOf(action)(o))
  {
    match action {
      case SetDefault(_, d) => NullIsNoDefault(d);
      case SetStorage(_, mode) => StorageWord(mode);
      case _ =>
    }
  }

  // ------------------------------------------------- add, drop, rename

  predicate Spells(t: Option<string>, small: string, capital: string, short: string, shortCapital: string)
    requires |small| == |capital| && |short| == |shortCapital|
  {
    t.Some? && (Says(Trim(t.value), small, capital) || Says(Trim(t.value), short, shortCapital))
  }

  /** The integer type a serial spelling stands for. */
  ghost predicate StandsFor(t: Option<string>, serial: Option<string>) {
    && (Spells(t, "smallserial", "SMALLSERIAL", "serial2", "SERIAL2") ==> serial == Some("smallint"))
    && (Spells(t, "serial", "SERIAL", "serial4", "SERIAL4") ==> serial == Some("integer"))
    && (Spells(t, "bigserial", "BIGSERIAL", "serial8", "SERIAL8") ==> serial == Some("bigint"))
    && (serial.Some? ==>
          || Spells(t, "smallserial", "SMALLSERIAL", "serial2", "SERIAL2")
          || Spells(t, "serial", "SERIAL", "serial4", "SERIAL4")
          || Spells(t, "bigserial", "BIGSERIAL", "serial8", "SERIAL8"))
  }

  lemma SmallSerial(s: string)
    ensures LowerAll(s) == "smallserial" <==> Says(s, "smallserial", "SMALLSERIAL")
    ensures LowerAll(s) == "serial2" <==> Says(s, "serial2", "SERIAL2")
  {
    LowerMeansSays(s, "smallserial", "SMALLSERIAL");
    LowerMeansSays(s, "serial2", "SERIAL2");
  }

  lemma PlainSerial(s: string)
    ensures LowerAll(s) == "serial" <==> Says(s, "serial", "SERIAL")
    ensures LowerAll(s) == "serial4" <==> Says(s, "serial4", "SERIAL4")
  {
    LowerMeansSays(s, "serial", "SERIAL");
    LowerMeansSays(s, "serial4", "SERIAL4");
  }

  lemma BigSerial(s: string)
    ensures LowerAll(s) == "bigserial" <==> Says(s, "bigserial", "BIGSERIAL")
    ensures LowerAll(s) == "serial8" <==> Says(s, "serial8", "SERIAL8")
  {
    LowerMeansSays(s, "bigserial", "BIGSERIAL");
    LowerMeansSays(s, "serial8", "SERIAL8");
  }

  lemma SerialMeaning(t: Option<string>)
    ensures StandsFor(t, SerialType(t))
  {
    if t.Some? {
      SmallSerial(Trim(t.value));
      PlainSerial(Trim(t.value));
      BigSerial(Trim(t.value));
    }
  }

  /** An absent column is appended: never null when declared so or serial, with the serial's
      integer type and sequence default, and with nothing known from a catalogue. A present one
      stays as it is. */
  lemma AddMeaning(r: Relation, name: string, dataType: Option<string>, notNull: bool, default_: Option<ExprIr>, rewrite: Rewrite)
    ensures HasColumn(r.columns, name) ==> Applied(r, Add(name, dataType, notNull, default_), rewrite) == r
    ensures !HasColumn(r.columns, name) ==>
              exists c: Column, serial: Option<string> ::
                var after := Applied(r, Add(name, dataType, notNull, default_), rewrite);
                && after.columns == r.columns + [c] && c.name == name && StandsFor(dataType, serial)
                && (c.isNullable <==> !notNull && serial == None)
                && c.dataType == (if serial.Some? then serial else dataType)
                && c.default_ == (if serial.Some? then Some(IndexDefinitions.FunctionCall("nextval", []))
                                  else if IsNullLiteral(default_) then None else default_)
                && c.typeId == None && c.avgWidth == None && c.defaultExprText == None && c.typeModifier == None
                && c.storage == None && c.compression == None && c.statisticsTarget == None && c.options == map[]
                && after.inheritance == r.inheritance[name := ColumnInheritance(0, true)]
                && after.identity == r.identity && after.generated == r.generated
  {
    var c, serial := Created(name, dataType, notNull, default_), SerialType(dataType);
    SerialMeaning(dataType);
    NullIsNoDefault(default_);
    if !HasColumn(r.columns, name) {
      assert Added(r, c).columns == r.columns + [c];
    }
  }

  /** A dropped name is gone from the columns and from every map; all else stays in order. */
  lemma DropMeaning(r: Relation, name: string, rewrite: Rewrite)
    ensures var after := Applied(r, Drop(name), rewrite);
            && (forall c :: c in after.columns <==> c in r.columns && c.name != name)
            && IsSubsequence(after.columns, r.columns)
            && (forall k :: k in after.inheritance <==> k in r.inheritance && k != name)
            && (forall k :: k in after.identity <==> k in r.identity && k != name)
            && (forall k :: k in after.generated <==> k in r.generated && k != name)
            && (forall k :: k in after.inheritance ==> after.inheritance[k] == r.inheritance[k])
            && (forall k :: k in after.identity ==> after.identity[k] == r.identity[k])
            && (forall k :: k in after.generated ==> after.generated[k] == r.generated[k])
  {
    WithoutMeaning(r.columns, name);
    WithoutIsSubsequence(r.columns, name);
  }

  ghost predicate IsSubsequence(s: seq<Column>, t: seq<Column>) {
    s == [] || (t != [] && (IsSubsequence(s, t[..|t| - 1]) ||
                            (s[|s| - 1] == t[|t| - 1] && IsSubsequence(s[..|s| - 1], t[..|t| - 1]))))
  }

  lemma {:induction false} WithoutIsSubsequence(cs: seq<Column>, name: string)
    ensures IsSubsequence(Without(cs, name), cs)
  {
    if cs != [] {
      var n := |cs| - 1;
      WithoutIsSubsequence(cs[..n], name);
      var kept := Without(cs[..n], name);
      if cs[n].name != name {
        assert (kept + [cs[n]])[..|kept|] == kept;
      } else {
        assert Without(cs, name) == kept + [] == kept;
      }
    }
  }

  ghost predicate MovedKey<V>(m: map<string, V>, n: map<string, V>, from_: string, to: string) {
    && from_ !in n
    && (to in n <==> from_ in m || to in m)
    && (from_ in m ==> n[to] == m[from_])
    && (forall k :: k != from_ && k != to ==> (k in n <==> k in m) && (k in m ==> n[k] == m[k]))
  }

  lemma RekeyedIsMoved<V>(m: map<string, V>, from_: string, to: string)
    requires from_ != to
    ensures MovedKey(m, Rekeyed(m, from_, to), from_, to)
  {
  }

  /** A rename to a free name changes the name of the first such column and nothing else of the
      columns, and moves its entries in every map; otherwise nothing happens. */
  lemma RenameMeaning(r: Relation, from_: string, to: string, rewrite: Rewrite)
    ensures !HasColumn(r.columns, from_) || HasColumn(r.columns, to) ==> Applied(r, Rename(from_, to), rewrite) == r
    ensures HasColumn(r.columns, from_) && !HasColumn(r.columns, to) ==>
              var p := PositionOf(r.columns, from_).value;
              var after := Applied(r, Rename(from_, to), rewrite);
              && after.columns == r.columns[p := r.columns[p].(name := to)]
              && MovedKey(r.inheritance, after.inheritance, from_, to) && MovedKey(r.identity, after.identity, from_, to)
              && MovedKey(Kinds(r.generated), Kinds(after.generated), from_, to)
              && forall k :: k in after.generated ==>
                   var was := if k == to && from_ in r.generated then from_ else k;
                   was in r.generated && after.generated[k].expression ==
                     if r.generated[was].expression.Some? then rewrite(r.generated[was].expression.value, from_, to) else None
  {
    if HasColumn(r.columns, from_) && !HasColumn(r.columns, to) {
      RekeyedIsMoved(r.inheritance, from_, to);
      RekeyedIsMoved(r.identity, from_, to);
      RekeyedIsMoved(Kinds(r.generated), from_, to);
      RewritingKeepsKinds(Rekeyed(r.generated, from_, to), text => rewrite(text, from_, to));
      assert Kinds(Rekeyed(r.generated, from_, to)) == Rekeyed(Kinds(r.generated), from_, to);
    }
  }

  function Kinds(m: map<string, Generated>): map<string, GeneratedKind> {
    map k | k in m :: m[k].kind
  }

  lemma RewritingKeepsKinds(m: map<string, Generated>, rewrite: string -> Option<string>)
    ensures Kinds(Rewritten(m, rewrite)) == Kinds(m)
  {
  }
}
