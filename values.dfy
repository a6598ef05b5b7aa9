/**
 * JavaScript values as the marshalling functions see them: finite trees
 * (no cycles, no sharing) of primitives, structured-clone-safe leaves,
 * arrays, objects and native images.
 */
module Values {
  import opened NativeImages

  /** Primitive values. NaN and the other IEEE specials are not modelled. */
  datatype Primitive = Bool(b: bool) | Num(x: real) | BigInt(n: int) | Str(s: string) | Symbol(id: nat)

  /** The built-in constructors whose instances structured clone carries as they are. */
  datatype Builtin = BooleanType | NumberType | StringType | DateType | ErrorType | RegExpType | ArrayBufferType

  /**
   * What a leaf object is: an instance of a built-in (a subclass instance
   * included), or an ArrayBuffer view (a typed array, a DataView, a Buffer).
   */
  datatype SafeKind = InstanceOf(builtin: Builtin) | View

  /** The prototype of an object: a plain object, or an instance of some other class. */
  datatype Proto = PlainObject | ClassInstance(className: string)

  datatype Value =
    | Undefined
    | Null
    | Prim(p: Primitive)
      /** A leaf object; its contents are opaque and never inspected. */
    | Safe(kind: SafeKind, contents: Bytes)
    | Arr(elems: seq<Value>)
      /** An object with its own enumerable string-keyed properties, in `Object.entries` order. */
    | Obj(proto: Proto, entries: seq<Entry>)
    | Image(image: seq<Representation>)

  datatype Entry = Entry(key: string, val: Value)

  /** JavaScript truthiness. */
  predicate Truthy(v: Value)
  {
    match v
    case Undefined => false
    case Null => false
    case Prim(p) => (
      match p
      case Bool(b) => b
      case Num(x) => x != 0.0
      case BigInt(n) => n != 0
      case Str(s) => s != ""
      case Symbol(_) => true)
    case _ => true
  }

  /** `value instanceof Object` */
  predicate IsObject(v: Value)
  {
    v.Safe? || v.Arr? || v.Obj? || v.Image?
  }

  function Keys(entries: seq<Entry>): (r: seq<string>)
    ensures |r| == |entries|
    ensures forall i | 0 <= i < |entries| :: r[i] == entries[i].key
  {
    if entries == [] then [] else [entries[0].key] + Keys(entries[1..])
  }

  /** The value stored under `key`, or undefined. Object keys are distinct, so the first match is the only one. */
  function Get(entries: seq<Entry>, key: string): Value
  {
    if entries == [] then Undefined
    else if entries[0].key == key then entries[0].val
    else Get(entries[1..], key)
  }

  /**
   * `v[key]` for a non-index key: an own property of an object, undefined
   * on everything else (arrays, leaves and native images carry no such key).
   */
  function Property(v: Value, key: string): Value
  {
    if v.Obj? then Get(v.entries, key) else Undefined
  }

  /** A number with no fractional part. */
  predicate IsInteger(v: Value)
  {
    v.Prim? && v.p.Num? && v.p.x.Floor as real == v.p.x
  }

  function NumberValue(n: int): (r: Value)
    ensures IsInteger(r) && r.p.x.Floor == n
  {
    Prim(Num(n as real))
  }
}
