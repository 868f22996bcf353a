/** Values shared by every controller: identifiers, optional request fields,
    and the part of an HTTP reply that the controllers decide (status code,
    JSON body reduced to data or a message, and the cookie instruction). */
module Common {

  /** A MongoDB ObjectId, abstracted to a natural number. */
  type Id = nat

  /** A request field that may be absent; `None` stands for both `undefined`
      and `null`. */
  datatype Option<T> = None | Some(value: T) {
    /** JavaScript's `??`: the value when present, otherwise the fallback. */
    function GetOr(fallback: T): (r: T)
      ensures Some? ==> r == value
      ensures None? ==> r == fallback
    {
      match this
      case Some(v) => v
      case None => fallback
    }

    /** `??` between two optional values. */
    function OrElse(other: Option<T>): (r: Option<T>)
      ensures Some? ==> r == this
      ensures None? ==> r == other
    {
      if Some? then this else other
    }
  }

  /** JavaScript truthiness of a possibly absent string: `undefined`, `null`
      and `""` are all falsy. */
  predicate Truthy(s: Option<string>) {
    s.Some? && s.value != ""
  }

  /** An id as it arrives from a path parameter or a request body: either a
      string Mongoose can cast to an ObjectId, or one it cannot (a CastError). */
  datatype ObjectIdText = Castable(id: Id) | NotCastable

  /** What a handler does to the client's cookies. */
  datatype CookieOp =
    | NoCookie
    | SetCookie(name: string, value: string, maxAgeMs: nat)
    | ClearCookie(name: string)

  /** The JSON body of a reply: a payload, or an object carrying one text
      under the key `message` or under the key `error`. */
  datatype Body<T> = Data(value: T) | Message(text: string) | Error(text: string)

  datatype Reply<T> = Reply(status: nat, body: Body<T>, cookie: CookieOp)

  /** `res.status(code).json({ message })` without touching cookies. */
  function Say<T>(code: nat, text: string): (r: Reply<T>)
    ensures r.status == code && r.body == Message(text) && r.cookie == NoCookie
  {
    Reply(code, Message(text), NoCookie)
  }

  /** `res.status(code).json({ error })` without touching cookies. */
  function Fail<T>(code: nat, text: string): (r: Reply<T>)
    ensures r.status == code && r.body == Error(text) && r.cookie == NoCookie
  {
    Reply(code, Error(text), NoCookie)
  }

  /** `res.status(code).json(value)` without touching cookies. */
  function Send<T>(code: nat, value: T): (r: Reply<T>)
    ensures r.status == code && r.body == Data(value) && r.cookie == NoCookie
  {
    Reply(code, Data(value), NoCookie)
  }

  /** The name of the session cookie. */
  const AuthCookie: string := "auth_token"
}
