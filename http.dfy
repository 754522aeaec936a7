/** The responses the route handlers send: a status code and a JSON body. */
module Http {
  import opened Wrappers
  import opened Js

  datatype Reply = Reply(status: nat, body: Body)

  /** `{ message }`, another JSON value, or no body (`res.end()`). */
  datatype Body = Notice(message: string) | Json(value: JsValue) | Empty

  /** The JSON a body carries; `None` for an empty one. */
  function BodyValue(b: Body): (v: Option<JsValue>)
    ensures b.Notice? ==> v.Some? && v.value.Obj? && Get(v.value, "message") == Str(b.message)
    ensures b.Json? ==> v == Some(b.value)
    ensures b.Empty? ==> v.None?
  {
    match b
    case Notice(text) => Some(Obj(map["message" := Str(text)]))
    case Json(value) => Some(value)
    case Empty => None
  }
}
