/**
 * The per-request key/value store the middlewares and handlers share. Values
 * are dynamically typed in the framework; the model keeps the two types the
 * core stores and reads back, and lumps every other type together.
 */
module GinContext {

  datatype Value = UintValue(n: nat) | StringValue(s: string) | OtherValue

  type Context = map<string, Value>
}
