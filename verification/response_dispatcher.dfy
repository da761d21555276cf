/**
 * `Handler::executeRequest`: sends a built request once through the HTTP
 * client and either returns the response, when its status code is one the
 * caller accepts, or fails with the exception the status code calls for.
 */
module ResponseDispatcher {
  import RequestBuilder

  /** What the handler reads from a response: its status code and its body as text. */
  datatype Response = Response(status: int, body: string)

  /** The exceptions `executeRequest` throws; each carries the response body. */
  datatype Failure =
    | AccessDenied(body: string, status: int)  // AccessDeniedException
    | NotFound(body: string)                   // NotFoundException
    | Conflict(body: string)                   // ConflictException
    | Unexpected(body: string, status: int)    // XApiException

  /** Either the response itself or exactly one failure. */
  datatype Outcome = Returned(response: Response) | Failed(failure: Failure)

  /** The status codes that have a failure kind of their own. */
  predicate IsReservedStatus(status: int)
  {
    status == 401 || status == 403 || status == 404 || status == 409
  }

  /**
   * The failure for a status the caller does not accept: 401 Unauthorized
   * and 403 Forbidden deny access, 404 Not Found and 409 Conflict have
   * their own kinds (RFC 9110, sections 15.5.2, 15.5.4, 15.5.5 and
   * 15.5.10), and every other status is an unexpected one. Each kind
   * stands for exactly its codes, and every failure carries the body.
   */
  function FailureFor(r: Response): (f: Failure)
    ensures f.body == r.body
    ensures f.AccessDenied? <==> r.status == 401 || r.status == 403
    ensures f.NotFound? <==> r.status == 404
    ensures f.Conflict? <==> r.status == 409
    ensures f.Unexpected? <==> !IsReservedStatus(r.status)
    ensures f.AccessDenied? || f.Unexpected? ==> f.status == r.status
  {
    if r.status == 401 || r.status == 403 then AccessDenied(r.body, r.status)
    else if r.status == 404 then NotFound(r.body)
    else if r.status == 409 then Conflict(r.body)
    else Unexpected(r.body, r.status)
  }

  /**
   * What `executeRequest` makes of the response, given the status codes the
   * caller accepts: an accepted status returns the very response,
   * unchanged; any other status fails with the kind its code calls for,
   * and the failure carries the response body.
   */
  function Classify(r: Response, acceptable: seq<int>): (o: Outcome)
    ensures o.Returned? <==> r.status in acceptable
    ensures o.Returned? ==> o.response == r
    ensures o.Failed? ==> o.failure.body == r.body
    ensures o.Failed? ==>
      (o.failure.AccessDenied? <==> r.status == 401 || r.status == 403)
      && (o.failure.NotFound? <==> r.status == 404)
      && (o.failure.Conflict? <==> r.status == 409)
      && (o.failure.Unexpected? <==> !IsReservedStatus(r.status))
      && (o.failure.AccessDenied? || o.failure.Unexpected? ==> o.failure.status == r.status)
  {
    if r.status in acceptable then Returned(r) else Failed(FailureFor(r))
  }

  /**
   * The acceptable codes matter only through membership: two lists that
   * agree on the status give the same outcome, and accepting more codes
   * never turns a returned response into a failure.
   */
  lemma ClassifyDependsOnMembership(r: Response, a1: seq<int>, a2: seq<int>)
    ensures (r.status in a1 <==> r.status in a2) ==> Classify(r, a1) == Classify(r, a2)
    ensures (forall s :: s in a1 ==> s in a2) && Classify(r, a1).Returned? ==> Classify(r, a2) == Classify(r, a1)
  {
  }

  /**
   * When the caller accepts none of 401, 403, 404 and 409, those statuses
   * always fail with their own kind, so checking the acceptable codes
   * before or after the fixed table makes no difference.
   */
  lemma ReservedStatusesFail(r: Response, acceptable: seq<int>)
    requires IsReservedStatus(r.status)
    requires forall s :: s in acceptable ==> !IsReservedStatus(s)
    ensures Classify(r, acceptable) == Failed(FailureFor(r))
    ensures !Classify(r, acceptable).failure.Unexpected?
  {
  }

  /** The HTTP client: it answers each request with a response and remembers what it was sent. */
  class Client {
    const respond: RequestBuilder.Request -> Response
    var sent: seq<RequestBuilder.Request>

    constructor (respond: RequestBuilder.Request -> Response)
      ensures this.respond == respond && sent == []
    {
      this.respond := respond;
      sent := [];
    }

    /** `sendRequest`. */
    method SendRequest(request: RequestBuilder.Request) returns (response: Response)
      modifies this
      ensures sent == old(sent) + [request]
      ensures response == respond(request)
    {
      sent := sent + [request];
      response := respond(request);
    }
  }
}
