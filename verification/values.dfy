/** Field values and records as the seeding script sees them: a record is a plain
    JavaScript object, so a key can be absent, hold `undefined`, hold `null`, hold
    the empty string, or hold some other value, and the script tells these apart
    with strict equality. */
module Values {

  /** A field value. `Undefined` is the value an explicit `undefined` assignment
      stores and what an absent key reads as; `Inherited` is what a property
      read of an absent key yields when `Object.prototype` supplies it (a
      method, or the prototype itself for `__proto__`). */
  datatype Value =
    | Undefined
    | Null
    | Str(s: string)
    | Num(n: int)
    | Bool(b: bool)
    | Inherited

  /** A document: field name to value. */
  type Record = map<string, Value>

  /** The property names every plain object inherits from `Object.prototype`. */
  const InheritedNames: set<string> := {
    "constructor", "hasOwnProperty", "isPrototypeOf", "propertyIsEnumerable",
    "toLocaleString", "toString", "valueOf", "__proto__",
    "__defineGetter__", "__defineSetter__", "__lookupGetter__", "__lookupSetter__"
  }

  /** Own-field read: the value stored under `k`, or `undefined` when the
      record does not hold `k`. Every read the model makes of a stored
      document, and of the base record's identity fields, is of this kind. */
  function Get(r: Record, k: string): Value {
    if k in r then r[k] else Undefined
  }

  /** Property read `record[key]` on a plain object: an own key yields its
      value, an absent key yields the inherited member if `Object.prototype`
      has one, and `undefined` otherwise. */
  function Read(r: Record, k: string): Value {
    if k in r then r[k] else if k in InheritedNames then Inherited else Undefined
  }

  /** The strict emptiness test `value === undefined || value === ""`. */
  predicate IsMissing(v: Value) {
    v == Undefined || v == Str("")
  }

  /** The record does not itself hold a usable value under `k`: the key is not
      an own key, or its value is `undefined` or `""`. This is the test the
      synthesizer uses (see the findings on `ScriptMissing`). */
  predicate Missing(r: Record, k: string) {
    k !in r || IsMissing(r[k])
  }

  /** The test exactly as the script writes it: `IsMissing` of the property
      read, which looks through to `Object.prototype`. It agrees with
      `Missing` except on an absent inherited name, which it takes as present. */
  function ScriptMissing(r: Record, k: string): (b: bool)
    ensures b <==> Missing(r, k) && !(k !in r && k in InheritedNames)
  {
    IsMissing(Read(r, k))
  }

  /** Only `undefined`, `""` and an absent key are missing: `null`, `0`,
      `false`, every non-empty string and any other value are present, falsy
      or not. */
  lemma PresentValues(r: Record, k: string)
    ensures k !in r ==> Missing(r, k)
    ensures k in r ==> (Missing(r, k) <==> r[k] == Undefined || r[k] == Str(""))
    ensures k in r && (r[k] == Null || r[k] == Num(0) || r[k] == Bool(false)) ==> !Missing(r, k)
  {
  }
}
