/** Object identity. Equality of identities ignores how the schema was inferred,
    so the identity is the schema and the name alone. */
module Identifiers {
  datatype ObjectId = ObjectId(schema: string, name: string)
}
