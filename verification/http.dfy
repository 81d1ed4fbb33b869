/** What both routers share: document identifiers, the session, the
    authentication gate and the HTTP status codes the handlers answer with. */
module Http {
  import opened Wrappers

  /** A MongoDB ObjectId, abstracted to a natural number. */
  type ObjectId = nat
  type UserId = ObjectId

  /** `req.session.userId`: absent when nobody is logged in. */
  type Session = Option<UserId>

  /** The `:id` path parameter: either a well-formed ObjectId or a string
      the ObjectId cast rejects. */
  datatype IdParam = Id(id: ObjectId) | BadId

  const OK: int := 200
  const CREATED: int := 201
  const BAD_REQUEST: int := 400
  const UNAUTHORIZED: int := 401
  const FORBIDDEN: int := 403
  const NOT_FOUND: int := 404
  const SERVER_ERROR: int := 500

  /** Mongoose's `required` rule for a String path: satisfied only by a
      supplied, non-empty string. */
  predicate PresentText(f: Option<string>) {
    f.Some? && f.value != ""
  }

  /** The `isAuthenticated` middleware of both routers: a request goes on to
      its handler exactly when the session carries a user; otherwise the
      middleware answers 401 itself. */
  function Gate(session: Session): (code: Option<int>)
    ensures code.None? <==> session.Some?
    ensures code.Some? ==> code.value == UNAUTHORIZED
  {
    if session.None? then Some(UNAUTHORIZED) else None
  }
}
