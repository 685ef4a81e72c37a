/** The exception handler function defined in the project's exceptions
    module: which exceptions become an HTTP response, with which body,
    status and headers, and the request's transaction being marked for
    rollback on the way out. The project's REST framework settings name no
    `EXCEPTION_HANDLER`, so this function is not installed and the
    framework's own default handler serves requests; the model describes
    the function as written. */
module Exceptions {
  import opened Wrappers
  import Strings
  import opened PyValues

  /** The attributes of a REST framework `APIException` the handler reads.
      `auth_header` and `wait` are absent (`None`) unless the subclass sets
      them. */
  datatype ApiException = ApiException(
    statusCode: int,
    detail: PyValue,
    authHeader: Option<string>,
    wait: Option<int>)

  /** The exceptions the handler tells apart, in the order it tests them. */
  datatype Exc =
    | Http404                      // django.http.Http404
    | DjangoPermissionDenied       // django.core.exceptions.PermissionDenied
    | Api(api: ApiException)       // rest_framework.exceptions.APIException
    | DjangoValidationError(message: PyValue, code: PyValue)
    | Other                        // anything else

  /** `Response(data, status=..., headers=...)`. The status of a Django
      validation error is its `code` as given, so it is a value, not an int. */
  datatype Response = Response(data: PyValue, status: PyValue, headers: map<string, string>)

  const WwwAuthenticate := "WWW-Authenticate"
  const RetryAfter := "Retry-After"

  /** `exceptions.NotFound()`: status 404 with the framework's default detail. */
  const NotFound := ApiException(404, PyStr("Not found."), None, None)

  /** `exceptions.PermissionDenied()`: status 403 with the framework's
      default detail. */
  const PermissionDenied :=
    ApiException(403, PyStr("You do not have permission to perform this action."), None, None)

  /** `getattr(exc, "auth_header", None)` is truthy. */
  predicate HasAuthHeader(e: ApiException) {
    e.authHeader.Some? && e.authHeader.value != []
  }

  /** `getattr(exc, "wait", None)` is truthy. */
  predicate HasWait(e: ApiException) {
    e.wait.Some? && e.wait.value != 0
  }

  /** The Django exceptions are replaced by their REST framework
      counterparts before dispatch; the others pass unchanged. */
  function Translate(exc: Exc): (r: Exc)
    ensures r.Api? || r.DjangoValidationError? || r.Other?
    ensures !exc.Http404? && !exc.DjangoPermissionDenied? ==> r == exc
  {
    match exc
    case Http404 => Api(NotFound)
    case DjangoPermissionDenied => Api(PermissionDenied)
    case _ => exc
  }

  /** The response headers of an API exception: the authentication
      challenge when there is one, the throttle wait formatted with `%d`
      when there is one, nothing else. */
  function Headers(e: ApiException): (r: map<string, string>)
    ensures WwwAuthenticate in r <==> HasAuthHeader(e)
    ensures RetryAfter in r <==> HasWait(e)
    ensures HasAuthHeader(e) ==> r[WwwAuthenticate] == e.authHeader.value
    ensures HasWait(e) ==> Strings.ParseInt(r[RetryAfter]) == Some(e.wait.value)
    ensures forall k :: k in r ==> k == WwwAuthenticate || k == RetryAfter
  {
    var auth := if HasAuthHeader(e) then map[WwwAuthenticate := e.authHeader.value] else map[];
    if HasWait(e) then
      Strings.FormatIntRoundTrip(e.wait.value);
      auth[RetryAfter := Strings.FormatInt(e.wait.value)]
    else auth
  }

  /** A list or dict is the body as it is; anything else is wrapped as
      `{"detail": ...}`. */
  function Body(v: PyValue): (r: PyValue)
    ensures IsListOrDict(r)
    ensures IsListOrDict(v) <==> r == v
    ensures !IsListOrDict(v) ==> r.PyDict? && r.entries.Keys == {"detail"} && r.entries["detail"] == v
  {
    if IsListOrDict(v) then v else PyDict(map["detail" := v])
  }

  /** `exception_handler` as a value: `None` for an exception it does not
      handle, otherwise the response it returns. */
  function Classify(exc: Exc): (r: Option<Response>)
    ensures r.None? <==> exc.Other?
    ensures r.Some? ==> IsListOrDict(r.value.data)
    ensures exc.Api? ==> r == Some(Response(Body(exc.api.detail), PyInt(exc.api.statusCode), Headers(exc.api)))
    ensures exc.DjangoValidationError? ==>
      && r.value.data == Body(exc.message)
      && r.value.status == (if Truthy(exc.code) then exc.code else PyInt(400))
      && r.value.headers == map[]
  {
    match Translate(exc)
    case Api(e) => Some(Response(Body(e.detail), PyInt(e.statusCode), Headers(e)))
    case DjangoValidationError(message, code) =>
      Some(Response(Body(message), if Truthy(code) then code else PyInt(400), map[]))
    case _ => None
  }

  /** Django's 404 becomes a 404 response with the framework's default
      detail and no headers. */
  lemma Http404IsNotFound()
    ensures Classify(Http404) == Some(Response(PyDict(map["detail" := PyStr("Not found.")]), PyInt(404), map[]))
  {
    assert Headers(NotFound) == map[];
  }

  /** Django's permission error becomes a 403 response. */
  lemma PermissionDeniedIs403()
    ensures Classify(DjangoPermissionDenied).value.status == PyInt(403)
    ensures Classify(DjangoPermissionDenied).value.headers == map[]
  {
    assert Headers(PermissionDenied) == map[];
  }

  /** A validation error with a truthy code and one without differ only in
      the status, which falls back to 400. */
  lemma ValidationStatusDefault(message: PyValue, code: PyValue)
    requires !Truthy(code)
    ensures Classify(DjangoValidationError(message, code)) == Classify(DjangoValidationError(message, PyNone))
    ensures Classify(DjangoValidationError(message, code)).value.status == PyInt(400)
  {
  }

  /** A database connection, as far as `set_rollback` sees it. */
  class Connection {
    /** `ATOMIC_REQUESTS` in the connection's settings. */
    var atomicRequests: bool
    var inAtomicBlock: bool
    var needsRollback: bool

    constructor (atomicRequests: bool, inAtomicBlock: bool)
      ensures this.atomicRequests == atomicRequests && this.inAtomicBlock == inAtomicBlock
      ensures !needsRollback
    {
      this.atomicRequests := atomicRequests;
      this.inAtomicBlock := inAtomicBlock;
      needsRollback := false;
    }

    /** `set_rollback()`: marks the request's transaction for rollback
        when the request runs inside one. */
    method SetRollback()
      modifies this
      ensures needsRollback == (old(needsRollback) || (atomicRequests && inAtomicBlock))
      ensures atomicRequests == old(atomicRequests) && inAtomicBlock == old(inAtomicBlock)
    {
      if atomicRequests && inAtomicBlock {
        needsRollback := true;
      }
    }
  }

  /** `exception_handler`: fills the headers dict entry by entry, requests
      the rollback and builds the response; the value it returns is the
      classification above, and the rollback is requested exactly when a
      response is returned. */
  method ExceptionHandler(exc: Exc, db: Connection) returns (r: Option<Response>)
    modifies db
    ensures r == Classify(exc)
    ensures db.needsRollback == (old(db.needsRollback) || (r.Some? && db.atomicRequests && db.inAtomicBlock))
    ensures db.atomicRequests == old(db.atomicRequests) && db.inAtomicBlock == old(db.inAtomicBlock)
  {
    var e := exc;
    if e.Http404? {
      e := Api(NotFound);
    } else if e.DjangoPermissionDenied? {
      e := Api(PermissionDenied);
    }

    if e.Api? {
      var headers: map<string, string> := map[];
      if e.api.authHeader.Some? && e.api.authHeader.value != [] {
        headers := headers[WwwAuthenticate := e.api.authHeader.value];
      }
      if e.api.wait.Some? && e.api.wait.value != 0 {
        headers := headers[RetryAfter := Strings.FormatInt(e.api.wait.value)];
      }
      var data := if e.api.detail.PyList? || e.api.detail.PyDict? then e.api.detail
                  else PyDict(map["detail" := e.api.detail]);
      db.SetRollback();
      return Some(Response(data, PyInt(e.api.statusCode), headers));
    }

    if e.DjangoValidationError? {
      var data := if e.message.PyList? || e.message.PyDict? then e.message
                  else PyDict(map["detail" := e.message]);
      db.SetRollback();
      return Some(Response(data, if Truthy(e.code) then e.code else PyInt(400), map[]));
    }
    return None;
  }
}
