/**
 * The session guards of middleware/auth.js. `requireAuth` either answers 401
 * itself or hands the request on; `optionalAuth` always hands it on, after
 * copying the session's user onto the request when there is one.
 */
module Middleware {
  import opened Common
  import Errors

  /** The session data set at login; an absent `req.session` is `None`. */
  datatype Session = Session(userId: Value, username: Value)

  /** `req.user` as `optionalAuth` sets it. */
  datatype SessionUser = SessionUser(id: Value, username: Value)

  /** Either the middleware answers (and `next` is not called), or it calls `next` once and sends nothing. */
  datatype Decision = Reject(response: Errors.HttpResponse) | Proceed

  const UnauthorizedMessage: string := "Debes iniciar sesión para acceder a este recurso"

  /** `req.session?.userId` is truthy. */
  predicate Authenticated(session: Option<Session>)
  {
    session.Some? && Truthy(session.value.userId)
  }

  /** `requireAuth`. */
  function RequireAuth(session: Option<Session>): (d: Decision)
    ensures d.Proceed? <==> session.Some? && Truthy(session.value.userId)
    ensures d.Reject? ==>
      && d.response.status == 401
      && d.response.body.error == UnauthorizedMessage
      && d.response.body.code == "UNAUTHORIZED"
      && d.response.body.details == None && d.response.body.debug == None
  {
    if session.None? || !Truthy(session.value.userId) then
      Reject(Errors.HttpResponse(401, Errors.ErrorBody(UnauthorizedMessage, "UNAUTHORIZED", None, None)))
    else Proceed
  }

  /** The user `optionalAuth` would attach for this session, if any. */
  function SessionUserOf(session: Option<Session>): (u: Option<SessionUser>)
    ensures u.Some? <==> Authenticated(session)
    ensures u.Some? ==> u.value.id == session.value.userId && u.value.username == session.value.username
  {
    if Authenticated(session) then Some(SessionUser(session.value.userId, session.value.username)) else None
  }

  /**
   * The two guards agree: a request passes `requireAuth` exactly when
   * `optionalAuth` attaches a user to it, and the user attached carries a
   * truthy id.
   */
  lemma {:induction false} GuardsAgree(session: Option<Session>)
    ensures RequireAuth(session).Proceed? <==> SessionUserOf(session).Some?
    ensures SessionUserOf(session).Some? ==> Truthy(SessionUserOf(session).value.id)
  {
  }

  /** An Express request, as far as the guards touch it. */
  class Request {
    var session: Option<Session>
    var user: Option<SessionUser>

    constructor (session: Option<Session>, user: Option<SessionUser>)
      ensures this.session == session && this.user == user
    {
      this.session := session;
      this.user := user;
    }

    /**
     * `optionalAuth`: sets `req.user` from the session when `userId` is
     * truthy, otherwise leaves `req.user` as it was; `next` is always called.
     */
    method OptionalAuth() returns (nextCalled: bool)
      modifies this
      ensures nextCalled
      ensures session == old(session)
      ensures Authenticated(old(session)) ==> user == SessionUserOf(old(session))
      ensures !Authenticated(old(session)) ==> user == old(user)
    {
      if session.Some? && Truthy(session.value.userId) {
        user := Some(SessionUser(session.value.userId, session.value.username));
      }
      nextCalled := true;
    }
  }
}
