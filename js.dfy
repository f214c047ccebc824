/** The JavaScript values that reach the route handlers: parsed JSON request
    bodies, environment variables, cookie values and thrown errors. */
module Js {
  import opened Wrappers

  /** A JavaScript value. JSON numbers are kept as exact reals (they are
      never NaN); functions, symbols and prototypes are not modelled. */
  datatype JsValue =
    | Undefined
    | Null
    | Bool(b: bool)
    | Num(n: real)
    | Str(s: string)
    | Arr(items: seq<JsValue>)
    | Obj(props: map<string, JsValue>)

  /** JavaScript truthiness: `if (v)` takes the branch, `!v` does not. */
  predicate Truthy(v: JsValue) {
    match v
    case Undefined => false
    case Null => false
    case Bool(b) => b
    case Num(n) => n != 0.0
    case Str(s) => s != ""
    case Arr(_) => true
    case Obj(_) => true
  }

  /** Truthiness of a value that is either `undefined` or a string, such as
      `process.env.X` or `cookies.get(name)?.value`. */
  predicate Present(s: Option<string>) {
    s.Some? && s.value != ""
  }

  /** The result of the `typeof` operator. */
  function TypeOf(v: JsValue): string {
    match v
    case Undefined => "undefined"
    case Null => "object"
    case Bool(_) => "boolean"
    case Num(_) => "number"
    case Str(_) => "string"
    case Arr(_) => "object"
    case Obj(_) => "object"
  }

  /** The `in` operator on an object: `key in v`. Only the own properties of
      plain objects are modelled. */
  predicate HasProperty(v: JsValue, key: string) {
    v.Obj? && key in v.props
  }

  /** Property access `v.key` on a value that is neither `null` nor
      `undefined`; a missing property reads as `undefined`. */
  function Get(v: JsValue, key: string): JsValue {
    if v.Obj? && key in v.props then v.props[key] else Undefined
  }

  /** `const { k0, k1, ... } = body` where `body` is the outcome of
      `await request.json()`: `Failure` carries what is thrown, a
      `SyntaxError` when the body is not JSON and a `TypeError` when it is
      `null`. */
  function Destructure(body: Option<JsValue>, keys: seq<string>): (r: Result<seq<JsValue>, JsValue>)
    ensures r.Success? ==> |r.value| == |keys|
  {
    match body
    case None => Failure(SyntaxError)
    case Some(v) =>
      if v.Null? || v.Undefined? then Failure(TypeError)
      else Success(seq(|keys|, i requires 0 <= i < |keys| => Get(v, keys[i])))
  }

  /** Error objects the handlers can catch. None of them has a `code`. */
  const SyntaxError: JsValue := Obj(map["name" := Str("SyntaxError")])
  const TypeError: JsValue := Obj(map["name" := Str("TypeError")])
  const PrismaValidationError: JsValue := Obj(map["name" := Str("PrismaClientValidationError")])

  /** What Prisma raises when a write violates a unique constraint. */
  function PrismaUniqueViolation(target: string): JsValue {
    Obj(map["name" := Str("PrismaClientKnownRequestError"), "code" := Str("P2002"),
            "meta" := Obj(map["target" := Str(target)])])
  }
}
