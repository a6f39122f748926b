/**
 * What every controller shares: the status codes it answers with and the
 * `!userId` check on the authenticated user that opens each handler.
 */
module Http {
  import opened Wrappers

  const StatusOk: nat := 200
  const StatusCreated: nat := 201
  const StatusBadRequest: nat := 400
  const StatusUnauthorized: nat := 401
  const StatusForbidden: nat := 403
  const StatusNotFound: nat := 404
  const StatusConflict: nat := 409
  const StatusServerError: nat := 500

  /** `'用户未认证'`, the 401 message of every handler that needs a user. */
  const Unauthenticated: string := "用户未认证"

  /** A handler's early answer: its status code and the `message` of its JSON body. */
  datatype Refusal = Refusal(status: nat, message: string)

  /** `req.user?.userId` is truthy: present and not 0. */
  predicate SignedIn(userId: Option<int>) {
    userId.Some? && userId.value != 0
  }

  /** The token payload (`JwtPayload`) that `generateToken` signs and the auth middleware attaches. */
  datatype Claims = Claims(userId: nat, email: string, username: string)

  /** `req.user?.userId`. */
  function UserIdOf(user: Option<Claims>): (r: Option<int>)
    ensures r.Some? <==> user.Some?
    ensures r.Some? ==> r.value == user.value.userId
  {
    if user.Some? then Some(user.value.userId) else None
  }

  /** A response a middleware sends: its status, `message` and optional `details`. */
  datatype Response = Response(status: nat, message: string, details: Option<string>)

  /**
   * What a middleware can do to one request: attach `req.user`, send a
   * response, and call `next`.
   */
  class Exchange {
    var user: Option<Claims>
    var response: Option<Response>
    var nextCalls: nat

    constructor(user: Option<Claims>)
      ensures this.user == user && response == None && nextCalls == 0
    {
      this.user := user;
      response := None;
      nextCalls := 0;
    }
  }
}
