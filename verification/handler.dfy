/**
 * The `Handler` object: the endpoint configuration it was constructed
 * with and its two collaborators, the request factory and the HTTP
 * client. None of its own fields ever change; the collaborators record
 * the calls the handler makes on them.
 */
module XApiHandler {
  import opened Wrappers
  import Query
  import opened RequestBuilder
  import opened ResponseDispatcher

  class Handler {
    const client: Client
    const factory: RequestFactory
    const baseUri: string
    const version: string

    function Configuration(): Config
    {
      Config(baseUri, version)
    }

    constructor (client: Client, factory: RequestFactory, baseUri: string, version: string)
      ensures this.client == client && this.factory == factory
      ensures this.baseUri == baseUri && this.version == version
    {
      this.client := client;
      this.factory := factory;
      this.baseUri := baseUri;
      this.version := version;
    }

    /**
     * `createRequest`: the factory is asked for exactly one request, with
     * the upper-cased method and the built URI, unless the method is
     * invalid, in which case it is not asked at all.
     */
    method CreateRequest(verb: string, path: string, query: Query.Parameters,
                         body: Option<string>, overrides: seq<Header>)
      returns (r: Result<Request, Error>)
      modifies factory
      ensures r == Build(Configuration(), verb, path, query, body, overrides)
      ensures factory.created == old(factory.created) + if r.Success? then [(r.value.verb, r.value.uri)] else []
    {
      var m := ParseMethod(verb);
      if m.None? {
        return Failure(InvalidArgument(InvalidMethodMessage(verb)));
      }

      var uri := JoinUri(baseUri, path);
      if |query| > 0 {
        uri := uri + "?" + Query.Build(query);
      }
      assert uri == RequestUri(baseUri, path, query);

      var request := factory.CreateRequest(m.value, uri);
      request := ApplyHeaders(request, overrides, version);
      NewRequestHeaders(m.value, uri, HeaderCalls(overrides, version));
      request := AttachBody(request, body);
      assert request == Assemble(Configuration(), m.value, path, query, body, overrides);
      r := Success(request);
    }

    /** `executeRequest`: one send, then the acceptable codes, then the fixed table. */
    method ExecuteRequest(request: Request, acceptable: seq<int>) returns (o: Outcome)
      modifies client
      ensures client.sent == old(client.sent) + [request]
      ensures o == Classify(client.respond(request), acceptable)
    {
      var response := client.SendRequest(request);
      var status := response.status;
      if status in acceptable {
        return Returned(response);
      }
      if status == 401 || status == 403 {
        o := Failed(AccessDenied(response.body, status));
      } else if status == 404 {
        o := Failed(NotFound(response.body));
      } else if status == 409 {
        o := Failed(Conflict(response.body));
      } else {
        o := Failed(Unexpected(response.body, status));
      }
    }
  }
}
