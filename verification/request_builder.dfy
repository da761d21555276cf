/**
 * `Handler::createRequest`: validates the HTTP method, builds the request
 * URI from the configured base URL, the path and the query parameters,
 * asks the request factory for a request, applies the caller's header
 * overrides and then the two default headers, and attaches the body.
 *
 * PSR-7 requests are immutable: `withHeader` and `withBody` return a new
 * request, so a request is a value here and `createRequest` threads it
 * through a loop. The body stream is the one mutable object involved.
 */
module RequestBuilder {
  import opened Wrappers
  import Text
  import Query
  import Streams

  /** The HTTP methods an xAPI endpoint accepts. */
  datatype Method = GET | POST | PUT | DELETE

  /** The accepted methods, in the order the error message lists them. */
  const Methods: seq<Method> := [GET, POST, PUT, DELETE]

  function Name(m: Method): string
  {
    match m
    case GET => "GET"
    case POST => "POST"
    case PUT => "PUT"
    case DELETE => "DELETE"
  }

  /** Recognises a method name in any letter case. */
  function ParseMethod(s: string): (r: Option<Method>)
    ensures r.Some? ==> Name(r.value) == Text.Upper(s)
    ensures r.None? ==> forall m :: Name(m) != Text.Upper(s)
  {
    var u := Text.Upper(s);
    if u == "GET" then Some(GET)
    else if u == "POST" then Some(POST)
    else if u == "PUT" then Some(PUT)
    else if u == "DELETE" then Some(DELETE)
    else None
  }

  /** Every accepted method is recognised from its own name. */
  lemma ParseMethodName(m: Method)
    ensures ParseMethod(Name(m)) == Some(m)
  {
    Text.UpperIdempotent(Name(m));
  }

  /** The names of `ms`, separated by ", ". */
  function NameList(ms: seq<Method>): string
    decreases |ms|
  {
    if ms == [] then ""
    else if |ms| == 1 then Name(ms[0])
    else Name(ms[0]) + ", " + NameList(ms[1..])
  }

  /** The failure `createRequest` reports: PHP's InvalidArgumentException and its message. */
  datatype Error = InvalidArgument(message: string)

  /** The part of the invalid-method message after the quoted method: the accepted methods, listed. */
  const InvalidMethodTail := " is no valid HTTP method (expected one of [" + NameList(Methods) + "]) in an xAPI context."

  /**
   * The message for a method outside the accepted set. It opens with the
   * offending method exactly as the caller wrote it, between double
   * quotes, and then lists the accepted methods.
   */
  function InvalidMethodMessage(s: string): (msg: string)
    ensures |msg| > |s| + 2 && msg[0] == '"' && msg[1..|s| + 1] == s && msg[|s| + 1] == '"'
    ensures msg[|s| + 2..] == InvalidMethodTail
  {
    var msg := "\"" + s + "\"" + InvalidMethodTail;
    assert |InvalidMethodTail| > 0;
    assert msg[1..|s| + 1] == s && msg[|s| + 2..] == InvalidMethodTail;
    msg
  }

  /** The list in the message is exactly the four accepted methods. */
  lemma MethodListText()
    ensures NameList(Methods) == "GET, POST, PUT, DELETE"
    ensures InvalidMethodTail == " is no valid HTTP method (expected one of [" + "GET, POST, PUT, DELETE" + "]) in an xAPI context."
  {
  }

  /** Drops every `/` at the end of the base URL; the model joins base and path with exactly one slash. */
  function TrimTrailingSlashes(s: string): (r: string)
    ensures |r| <= |s| && r == s[..|r|]
    ensures r == [] || r[|r| - 1] != '/'
    ensures forall i :: |r| <= i < |s| ==> s[i] == '/'
    decreases |s|
  {
    if s != [] && s[|s| - 1] == '/' then
      var r := TrimTrailingSlashes(s[..|s| - 1]);
      assert r == s[..|r|];
      r
    else s
  }

  /** Drops every `/` at the start of the path; the model joins base and path with exactly one slash. */
  function TrimLeadingSlashes(s: string): (r: string)
    ensures |r| <= |s| && r == s[|s| - |r|..]
    ensures r == [] || r[0] != '/'
    ensures forall i :: 0 <= i < |s| - |r| ==> s[i] == '/'
    decreases |s|
  {
    if s != [] && s[0] == '/' then
      var r := TrimLeadingSlashes(s[1..]);
      assert r == s[|s| - |r|..];
      r
    else s
  }

  predicate AllSlashes(s: string) { forall i :: 0 <= i < |s| ==> s[i] == '/' }

  /**
   * The base URL and the path with exactly one slash between them: a
   * prefix of the base, a slash, and a suffix of the path, with no other
   * slash on either side of the joining one.
   */
  function JoinUri(base: string, path: string): (r: string)
    ensures var k := |TrimTrailingSlashes(base)|;
      k < |r| && r[..k] == base[..k] && r[k] == '/'
      && (k == 0 || r[k - 1] != '/') && (k + 1 == |r| || r[k + 1] != '/')
      && |r| - k - 1 <= |path| && r[k + 1..] == path[|path| - (|r| - k - 1)..]
      && (forall i :: 0 <= i < |path| - (|r| - k - 1) ==> path[i] == '/')
  {
    var b, p := TrimTrailingSlashes(base), TrimLeadingSlashes(path);
    SlashJoined(b, p);
    b + "/" + p
  }

  /** A slash between a text that does not end in one and a text that does not start with one is the only slash at the join. */
  lemma SlashJoined(b: string, p: string)
    requires b == [] || b[|b| - 1] != '/'
    requires p == [] || p[0] != '/'
    ensures var r := b + "/" + p;
      |b| < |r| && r[..|b|] == b && r[|b|] == '/' && r[|b| + 1..] == p
      && (|b| == 0 || r[|b| - 1] != '/') && (|b| + 1 == |r| || r[|b| + 1] != '/')
  {
    var r := b + "/" + p;
    assert r[..|b|] == b && r[|b| + 1..] == p;
  }

  lemma {:induction false} TrimTrailingSlashesOf(base: string, slashes: string)
    requires base == [] || base[|base| - 1] != '/'
    requires AllSlashes(slashes)
    ensures TrimTrailingSlashes(base + slashes) == base
    decreases |slashes|
  {
    if slashes != [] {
      var s := base + slashes;
      assert s[|s| - 1] == '/';
      assert s[..|s| - 1] == base + slashes[..|slashes| - 1];
      TrimTrailingSlashesOf(base, slashes[..|slashes| - 1]);
    }
  }

  lemma {:induction false} TrimLeadingSlashesOf(slashes: string, path: string)
    requires path == [] || path[0] != '/'
    requires AllSlashes(slashes)
    ensures TrimLeadingSlashes(slashes + path) == path
    decreases |slashes|
  {
    if slashes != [] {
      var s := slashes + path;
      assert s[0] == '/';
      assert s[1..] == slashes[1..] + path;
      TrimLeadingSlashesOf(slashes[1..], path);
    }
  }

  /**
   * However many slashes the base URL ends with and the path starts with,
   * the two are joined by exactly one.
   */
  lemma JoinUriSingleSlash(base: string, trailing: string, leading: string, path: string)
    requires base == [] || base[|base| - 1] != '/'
    requires path == [] || path[0] != '/'
    requires AllSlashes(trailing) && AllSlashes(leading)
    ensures JoinUri(base + trailing, leading + path) == base + "/" + path
  {
    TrimTrailingSlashesOf(base, trailing);
    TrimLeadingSlashesOf(leading, path);
  }

  /**
   * The request URI: the joined URL, and, exactly when there are
   * parameters, `?` and a query string that reads back as the parameters,
   * in insertion order.
   */
  function RequestUri(base: string, path: string, query: Query.Parameters): (uri: string)
    ensures var joined := JoinUri(base, path);
      |uri| >= |joined| && uri[..|joined|] == joined
      && (query == [] <==> uri == joined)
      && (query != [] ==> uri[|joined|] == '?' && Query.Parse(uri[|joined| + 1..]) == Some(Query.Texts(query)))
  {
    var joined := JoinUri(base, path);
    if |query| > 0 then
      var q := Query.Build(query);
      Query.ParseBuild(query);
      assert (joined + "?" + q)[..|joined|] == joined && (joined + "?" + q)[|joined| + 1..] == q;
      joined + "?" + q
    else joined
  }

  /** One `withHeader(name, value)` call. */
  datatype Header = Header(name: string, value: string)

  /** The protocol-version header the xAPI specification requires on every request. */
  const VersionHeader := "X-Experience-API-Version"
  const ContentTypeHeader := "Content-Type"
  const JsonMediaType := "application/json"

  /**
   * Whether some entry of `hs` has exactly this name. The model takes override
   * detection to be an exact-key lookup on the overrides.
   */
  predicate Sets(hs: seq<Header>, name: string)
  {
    exists i :: 0 <= i < |hs| && hs[i].name == name
  }

  /** The value a run of `withHeader` calls leaves for `name`: that of the last call naming it. */
  function Effective(hs: seq<Header>, name: string): (r: Option<string>)
    ensures r.None? <==> !Sets(hs, name)
    decreases |hs|
  {
    if hs == [] then None
    else if hs[|hs| - 1].name == name then Some(hs[|hs| - 1].value)
    else Effective(hs[..|hs| - 1], name)
  }

  lemma {:induction false} EffectiveAppend(a: seq<Header>, b: seq<Header>, name: string)
    ensures Effective(a + b, name) == if Sets(b, name) then Effective(b, name) else Effective(a, name)
    decreases |b|
  {
    if b != [] {
      var ab := a + b;
      assert ab[..|ab| - 1] == a + b[..|b| - 1];
      assert ab[|ab| - 1] == b[|b| - 1];
      EffectiveAppend(a, b[..|b| - 1], name);
      if b[|b| - 1].name != name {
        assert Sets(b, name) ==> Sets(b[..|b| - 1], name);
      }
    } else {
      assert a + b == a;
    }
  }

  /**
   * The default header calls, each made only when the overrides do not set
   * that header: the version header with the configured version, then the
   * content type `application/json`.
   */
  function Defaults(overrides: seq<Header>, version: string): (d: seq<Header>)
    ensures |d| == (if Sets(overrides, VersionHeader) then 0 else 1) + (if Sets(overrides, ContentTypeHeader) then 0 else 1)
    ensures forall i :: 0 <= i < |d| ==>
      (d[i] == Header(VersionHeader, version) || d[i] == Header(ContentTypeHeader, JsonMediaType))
      && !Sets(overrides, d[i].name)
    ensures !Sets(overrides, VersionHeader) ==> d[0] == Header(VersionHeader, version)
    ensures !Sets(overrides, ContentTypeHeader) ==> d[|d| - 1] == Header(ContentTypeHeader, JsonMediaType)
  {
    (if Sets(overrides, VersionHeader) then [] else [Header(VersionHeader, version)])
    + (if Sets(overrides, ContentTypeHeader) then [] else [Header(ContentTypeHeader, JsonMediaType)])
  }

  /**
   * Every `withHeader` call `createRequest` makes, in order. The overrides
   * are applied first and in the caller's order; after them come only
   * default calls, for reserved headers the overrides leave unset, the
   * version header before the content type.
   */
  function HeaderCalls(overrides: seq<Header>, version: string): (calls: seq<Header>)
    ensures |calls| == |overrides| + (if Sets(overrides, VersionHeader) then 0 else 1)
                                   + (if Sets(overrides, ContentTypeHeader) then 0 else 1)
    ensures calls[..|overrides|] == overrides
    ensures forall i :: |overrides| <= i < |calls| ==>
      (calls[i].name == VersionHeader || calls[i].name == ContentTypeHeader)
      && !Sets(overrides, calls[i].name)
    ensures !Sets(overrides, VersionHeader) ==> calls[|overrides|] == Header(VersionHeader, version)
    ensures !Sets(overrides, ContentTypeHeader) ==> calls[|calls| - 1] == Header(ContentTypeHeader, JsonMediaType)
  {
    var calls := overrides + Defaults(overrides, version);
    assert calls[..|overrides|] == overrides;
    calls
  }

  /** With no overrides, exactly the version header and then the content type are set. */
  lemma HeaderCallsWithoutOverrides(version: string)
    ensures HeaderCalls([], version) == [Header(VersionHeader, version), Header(ContentTypeHeader, JsonMediaType)]
  {
    assert !Sets([], VersionHeader) && !Sets([], ContentTypeHeader);
  }

  /** The value the default calls alone leave for a header: none for one the overrides set. */
  lemma DefaultsEffective(overrides: seq<Header>, version: string, name: string)
    ensures Effective(Defaults(overrides, version), name) ==
      if Sets(overrides, name) then None
      else if name == VersionHeader then Some(version)
      else if name == ContentTypeHeader then Some(JsonMediaType)
      else None
  {
    var v, c := Header(VersionHeader, version), Header(ContentTypeHeader, JsonMediaType);
    assert |VersionHeader| != |ContentTypeHeader|;
    var d := Defaults(overrides, version);
    if Sets(overrides, VersionHeader) && Sets(overrides, ContentTypeHeader) {
      assert d == [];
    } else if Sets(overrides, VersionHeader) {
      assert d == [c] && d[..0] == [];
    } else if Sets(overrides, ContentTypeHeader) {
      assert d == [v] && d[..0] == [];
    } else {
      assert d == [v, c] && d[..1] == [v] && d[..1][..0] == [];
    }
  }

  /**
   * Override precedence: a header the caller overrides keeps the caller's
   * value, the version and content-type headers otherwise get the
   * configured version and `application/json`, so both are always set, and
   * every other header is exactly as the overrides left it.
   */
  lemma HeaderPrecedence(overrides: seq<Header>, version: string, name: string)
    ensures var calls := HeaderCalls(overrides, version);
      Effective(calls, name) ==
        if Sets(overrides, name) then Effective(overrides, name)
        else if name == VersionHeader then Some(version)
        else if name == ContentTypeHeader then Some(JsonMediaType)
        else None
  {
    EffectiveAppend(overrides, Defaults(overrides, version), name);
    DefaultsEffective(overrides, version, name);
  }

  predicate DistinctNames(hs: seq<Header>)
  {
    forall i, j :: 0 <= i < j < |hs| ==> hs[i].name != hs[j].name
  }

  /** When the overrides name each header once, as the keys of a PHP array do, so do all the calls. */
  lemma HeaderCallsDistinct(overrides: seq<Header>, version: string)
    requires DistinctNames(overrides)
    ensures DistinctNames(HeaderCalls(overrides, version))
  {
    var calls := HeaderCalls(overrides, version);
    forall i, j | 0 <= i < j < |calls| ensures calls[i].name != calls[j].name {
      if j >= |overrides| && i < |overrides| {
        assert calls[i] == overrides[i];
      }
    }
  }

  /** A call made while the body is attached: `getBody()` and `withBody(stream)` on the request, or a call on the stream. */
  datatype BodyCall = GetBody | OnStream(call: Streams.StreamCall) | WithBody

  /** The calls a stream recorded, as calls made while attaching a body. */
  function OnStreamCalls(cs: seq<Streams.StreamCall>): (bc: seq<BodyCall>)
    ensures |bc| == |cs|
    ensures forall i :: 0 <= i < |cs| ==> bc[i] == OnStream(cs[i])
    decreases |cs|
  {
    if cs == [] then [] else [OnStream(cs[0])] + OnStreamCalls(cs[1..])
  }

  /** The calls that attach `data`: `getBody()`, `write(data)` and `rewind()` once each, then `withBody(stream)`. */
  function BodySteps(data: string): seq<BodyCall>
  {
    [GetBody, OnStream(Streams.WriteCall(data)), OnStream(Streams.RewindCall), WithBody]
  }

  /**
   * The request as the handler leaves it: the method and URI it was
   * created with, the `withHeader` calls made on it in order, the calls
   * that attached a body, and the state of its body stream.
   */
  datatype Request = Request(verb: Method, uri: string, headers: seq<Header>, bodyCalls: seq<BodyCall>, body: Streams.Body)

  /** What the request factory's `createRequest(method, uri)` returns: no headers, the empty body. */
  function NewRequest(m: Method, uri: string): Request
  {
    Request(m, uri, [], [], Streams.Empty)
  }

  /** PSR-7 `withHeader(name, value)`: the request with one more header call. */
  function WithHeader(r: Request, h: Header): Request
  {
    r.(headers := r.headers + [h])
  }

  /** The handler's configuration: the endpoint's base URL and the xAPI version it speaks. */
  datatype Config = Config(baseUri: string, version: string)

  /** Header calls on a request fresh from the factory are all the headers it has. */
  lemma NewRequestHeaders(m: Method, uri: string, calls: seq<Header>)
    ensures var r := NewRequest(m, uri);
      r.(headers := r.headers + calls) == r.(headers := calls)
  {
    assert [] + calls == calls;
  }

  /** The request factory: it hands out fresh requests and remembers every method and URI it was asked for. */
  class RequestFactory {
    var created: seq<(Method, string)>

    constructor ()
      ensures created == []
    {
      created := [];
    }

    /** `createRequest(method, uri)`. */
    method CreateRequest(m: Method, uri: string) returns (r: Request)
      modifies this
      ensures created == old(created) + [(m, uri)]
      ensures r == NewRequest(m, uri)
    {
      created := created + [(m, uri)];
      r := NewRequest(m, uri);
    }
  }

  /**
   * The request after the body steps. Without a body it is unchanged.
   * With one, the body is written at the stream's position and the stream
   * rewound and attached; the method, URI and headers stay. When the
   * stream was the empty one of a fresh request, a reader of the attached
   * stream gets exactly the body.
   */
  function Attached(r: Request, body: Option<string>): (a: Request)
    requires Streams.WellFormed(r.body)
    ensures a.verb == r.verb && a.uri == r.uri && a.headers == r.headers
    ensures Streams.WellFormed(a.body)
    ensures body.None? ==> a == r
    ensures body.Some? ==> a.bodyCalls == r.bodyCalls + BodySteps(body.value)
    ensures body.Some? ==>
      a.body.position == 0 && r.body.position + |body.value| <= |a.body.contents|
      && a.body.contents[r.body.position..r.body.position + |body.value|] == body.value
    ensures body.Some? && r.body == Streams.Empty ==> Streams.Remaining(a.body) == body.value
  {
    match body
    case None => r
    case Some(b) =>
      var w := Streams.Written(r.body, b);
      assert r.body == Streams.Empty ==> w.contents == w.contents[0..|b|];
      r.(bodyCalls := r.bodyCalls + BodySteps(b), body := Streams.Rewound(w))
  }

  /** The request `createRequest` builds once the method is known to be valid. */
  function Assemble(h: Config, m: Method, path: string, query: Query.Parameters,
                    body: Option<string>, overrides: seq<Header>): Request
  {
    Attached(NewRequest(m, RequestUri(h.baseUri, path, query)).(headers := HeaderCalls(overrides, h.version)), body)
  }

  /**
   * What `createRequest` produces, as a function of its arguments. A method
   * outside the accepted set fails with the message naming it. Otherwise
   * the request carries the upper-cased method and the built URI; an
   * override of the version or content-type header wins, else the
   * configured version and `application/json` are set; and a body is
   * written, rewound and attached, once each, so that a reader of the
   * request gets exactly that body.
   */
  function Build(h: Config, verb: string, path: string, query: Query.Parameters,
                 body: Option<string>, overrides: seq<Header>): (r: Result<Request, Error>)
    ensures r.Failure? <==> ParseMethod(verb).None?
    ensures r.Failure? ==> r.error == InvalidArgument(InvalidMethodMessage(verb))
    ensures r.Success? ==>
      Name(r.value.verb) == Text.Upper(verb)
      && r.value.uri == RequestUri(h.baseUri, path, query)
      && r.value.headers == HeaderCalls(overrides, h.version)
      && Effective(r.value.headers, VersionHeader)
         == Some(if Sets(overrides, VersionHeader) then Effective(overrides, VersionHeader).value else h.version)
      && Effective(r.value.headers, ContentTypeHeader)
         == Some(if Sets(overrides, ContentTypeHeader) then Effective(overrides, ContentTypeHeader).value else JsonMediaType)
    ensures r.Success? && body.None? ==> r.value.bodyCalls == [] && r.value.body == Streams.Empty
    ensures r.Success? && body.Some? ==>
      r.value.bodyCalls == BodySteps(body.value)
      && Streams.WellFormed(r.value.body) && Streams.Remaining(r.value.body) == body.value
  {
    match ParseMethod(verb)
    case None => Failure(InvalidArgument(InvalidMethodMessage(verb)))
    case Some(m) =>
      HeaderPrecedence(overrides, h.version, VersionHeader);
      HeaderPrecedence(overrides, h.version, ContentTypeHeader);
      assert [] + BodySteps(if body.Some? then body.value else "") == BodySteps(if body.Some? then body.value else "");
      Success(Assemble(h, m, path, query, body, overrides))
  }

  /** Building depends on the method's letter case only through its upper-cased form. */
  lemma {:induction false} BuildCaseInsensitive(h: Config, m1: string, m2: string, path: string, query: Query.Parameters,
                             body: Option<string>, overrides: seq<Header>)
    requires Text.Upper(m1) == Text.Upper(m2)
    ensures Build(h, m1, path, query, body, overrides).Success? == Build(h, m2, path, query, body, overrides).Success?
    ensures ParseMethod(m1).Some? ==>
      Build(h, m1, path, query, body, overrides) == Build(h, m2, path, query, body, overrides)
  {
    assert ParseMethod(m1) == ParseMethod(m2);
  }

  /**
   * The header steps of `createRequest`: every override through
   * `withHeader`, in order, then each default the overrides do not set.
   */
  method ApplyHeaders(request: Request, overrides: seq<Header>, version: string) returns (r: Request)
    ensures r == request.(headers := request.headers + HeaderCalls(overrides, version))
  {
    r := request;
    var i := 0;
    while i < |overrides|
      invariant 0 <= i <= |overrides|
      invariant r == request.(headers := request.headers + overrides[..i])
    {
      r := WithHeader(r, overrides[i]);
      assert overrides[..i + 1] == overrides[..i] + [overrides[i]];
      i := i + 1;
    }
    assert overrides[..i] == overrides;
    if !Sets(overrides, VersionHeader) {
      r := WithHeader(r, Header(VersionHeader, version));
    }
    if !Sets(overrides, ContentTypeHeader) {
      r := WithHeader(r, Header(ContentTypeHeader, JsonMediaType));
    }
  }

  /**
   * The body steps of `createRequest`: `getBody()`, `write(body)`,
   * `rewind()` on the stream, then `withBody(stream)`; nothing at all
   * when there is no body.
   */
  method AttachBody(request: Request, body: Option<string>) returns (r: Request)
    requires Streams.WellFormed(request.body)
    ensures r == Attached(request, body)
  {
    r := request;
    if body.Some? {
      var stream := new Streams.Stream(r.body);
      var _ := stream.Write(body.value);
      stream.Rewind();
      assert [GetBody] + OnStreamCalls(stream.calls) + [WithBody] == BodySteps(body.value);
      r := r.(bodyCalls := r.bodyCalls + [GetBody] + OnStreamCalls(stream.calls) + [WithBody], body := stream.State());
    }
  }
}
