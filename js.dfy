/** JavaScript-level values and outcomes shared by the provider layer.

    The layer talks to foreign code (JSON serialisation, string conversion,
    the inference daemon, HTTP). None of that code is modelled: each is a
    function-typed parameter, and this module only fixes the shapes of the
    values that cross those boundaries.
 */
module Js {

  datatype Option<+T> = None | Some(value: T)

  /** A JavaScript value, as far as the prompt renderer can tell values apart:
      `typeof` string, `Array.isArray`, a plain object with its own keys,
      and the primitives on which the `in` operator throws. */
  datatype Value =
    | VString(s: string)
    | VNumber(n: real)
    | VBool(b: bool)
    | VNull
    | VUndefined
    | VArray(items: seq<Value>)
    | VObject(fields: map<string, Value>)
  {
    /** Values on which `key in v` raises a TypeError (everything that is not an object). */
    predicate IsPrimitive() {
      VNumber? || VBool? || VNull? || VUndefined?
    }
  }

  /** The two value-to-text conversions of the JavaScript runtime that the
      renderer relies on: `JSON.stringify(v)` and the conversion a template
      literal `${v}` applies to a non-string value. */
  datatype Runtime = Runtime(stringify: Value -> string, templateText: Value -> string)

  /** The text `${v}` produces: a string is inserted as it is. */
  function Interpolate(rt: Runtime, v: Value): (r: string)
    ensures v.VString? ==> r == v.s
  {
    if v.VString? then v.s else rt.templateText(v)
  }

  /** How a call ends: it returns (or its promise resolves) with a value, or it throws
      (or its promise rejects) with an error message. */
  datatype Completion<+T> = Done(value: T) | Threw(error: string)

  /** How a foreign producer (an async iterator, a body reader) ends after
      handing out its chunks: it is exhausted, or its next read fails. */
  datatype SourceEnd = Exhausted | Failed(error: string)

  /** A finite sequence of chunks produced by foreign code, in delivery order. */
  datatype ChunkSource<+T> = ChunkSource(chunks: seq<T>, end: SourceEnd)

  /** How a ReadableStream built by the layer ends: `controller.close()` or `controller.error(e)`. */
  datatype StreamEnd = Closed | Errored(error: string)

  /** Everything a ReadableStream's controller was given, in order, and how it ended. */
  datatype Stream<+T> = Stream(items: seq<T>, end: StreamEnd)
}
