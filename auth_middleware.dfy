/** The auth guard: a request without a session token, or whose token does
    not verify, is answered 401 and goes no further; otherwise the token's
    user id is attached to the request and the next handler runs. */
module AuthMiddleware {
  import opened Common
  import opened Crypto

  /** What the guard decides for a request. */
  datatype Decision = Reject(reply: Reply<()>) | Next(userId: Id)

  /** The decision on the `auth_token` cookie. */
  function Authenticate(token: Option<string>, jwt: Jwt): (d: Decision)
    ensures !Truthy(token) ==> d == Reject(Say(401, "Not authorized"))
    ensures Truthy(token) && jwt.verify(token.value).None? ==>
      d == Reject(Say(401, "Unauthorized – Invalid token"))
    ensures Truthy(token) && jwt.verify(token.value).Some? ==>
      d == Next(jwt.verify(token.value).value.userId)
    ensures d.Reject? ==> d.reply.status == 401 && d.reply.cookie == NoCookie
  {
    if !Truthy(token) then Reject(Say(401, "Not authorized"))
    else match jwt.verify(token.value)
      case None => Reject(Say(401, "Unauthorized – Invalid token"))
      case Some(decoded) => Next(decoded.userId)
  }

  /** The parts of an Express request and response the guard touches:
      the cookie it reads, the `userId` it writes, how often `next` was
      called, and the reply sent, if any. */
  class Request {
    const authToken: Option<string>
    var userId: Option<Id>
    var nextCalls: nat
    var reply: Option<Reply<()>>

    constructor (token: Option<string>)
      ensures authToken == token && userId == None && nextCalls == 0 && reply == None
    {
      authToken := token;
      userId := None;
      nextCalls := 0;
      reply := None;
    }
  }

  /** `authMiddleware(req, res, next)`. */
  method Guard(req: Request, jwt: Jwt)
    modifies req
    ensures match Authenticate(req.authToken, jwt)
      case Reject(reply) =>
        && req.reply == Some(reply)
        && req.userId == old(req.userId)
        && req.nextCalls == old(req.nextCalls)
      case Next(uid) =>
        && req.userId == Some(uid)
        && req.nextCalls == old(req.nextCalls) + 1
        && req.reply == old(req.reply)
  {
    var token := req.authToken;
    if !Truthy(token) {
      req.reply := Some(Say(401, "Not authorized"));
      return;
    }
    var decoded := jwt.verify(token.value);
    if decoded.None? {
      req.reply := Some(Say(401, "Unauthorized – Invalid token"));
      return;
    }
    req.userId := Some(decoded.value.userId);
    req.nextCalls := req.nextCalls + 1;
  }
}
