/** What is known of an index, part by part. */
module IndexDefinitions {
  import opened Collections

  datatype ResolvedName = ResolvedName(schema: string, name: string)

  /** A possibly qualified name, not yet looked up. */
  datatype WrittenName = WrittenName(schema: Option<string>, name: string)

  datatype ExprIr =
    | Literal(text: string)
    | ColumnRef(column: string)
    | FunctionCall(function_: string, args: seq<ExprIr>)
    | BinaryOp(left: ExprIr, op: string, right: ExprIr)
    | Cast(expr: ExprIr, targetType: string)
    | Sentinel(marker: string)
    | Omitted
    | UnaryOp(unaryOp: string, operand: ExprIr)

  datatype IndexOrder = DefaultOrder | DescNullsLast | AscNullsFirst

  /** What a key sorts on; an expression the catalog reported has no identity. */
  datatype IndexKeyKind = Column(name: string) | Expression(ir: Option<ExprIr>)

  datatype KeyOpclass = Default(family: Option<ResolvedName>) | Explicit(written: ResolvedName) | UnresolvedClass

  datatype KeyCollation = NotCollatable | Derived | Resolved(collation: ResolvedName) | UnresolvedCollation

  datatype IndexKey = IndexKey(kind: IndexKeyKind, opclass: KeyOpclass, collation: KeyCollation, order: IndexOrder)

  datatype IndexPredicate = NoPredicate | Parsed(ir: ExprIr) | Opaque

  datatype IndexDefinition = IndexDefinition(
    method_: Option<string>,
    keys: seq<IndexKey>,
    included: seq<IndexKey>,
    expressionKeys: nat,
    unique: bool,
    nullsNotDistinct: Option<bool>,
    predicate_: IndexPredicate,
    unestablished: bool,
    valid: bool,
    ready: bool,
    live: bool)
}
