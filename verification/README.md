# xAPI client request handler, modelled in Dafny

This project models the request handler of the PHP xAPI client
(`Xabbuh\XApi\Client\Request\Handler`). The handler is the one part of the
client with real decision logic. It has two operations:

- `createRequest(method, uri, urlParameters = [], body = null, headers = [])`
  - checks the HTTP method case-insensitively against `GET, POST, PUT, DELETE`;
  - builds the request URI from the configured base URL, the path and the
    query parameters;
  - asks the PSR-17 request factory for a request;
  - applies the caller's header overrides, then the `X-Experience-API-Version`
    and `Content-Type: application/json` defaults, each only when no override
    sets it;
  - writes a body, if there is one, into the request's stream, rewinds the
    stream and attaches it.
- `executeRequest(request, validStatusCodes)` sends the request once through
  the PSR-18 HTTP client. It returns the response when its status code is
  acceptable. Otherwise it fails:
  - 401 and 403 give an access-denied failure;
  - 404 gives not-found;
  - 409 gives conflict;
  - any other status gives the generic xAPI failure.

This model is derived from the handler's tests,
`tests/Request/HandlerTest.php` (PHPUnit) and `spec/Request/HandlerSpec.php`
(phpspec), which pin the handler down call by call. The version header is the `X-Experience-API-Version` header of the
xAPI specification. The status codes are those of RFC 9110, sections 15.5.2,
15.5.4, 15.5.5 and 15.5.10.

Layout, one module per file:

- `wrappers.dfy`: `Option` and `Result`.
- `text.dfy`: ASCII upper-casing of a method name and PHP's integer-to-string
  conversion, with a parser that inverts the conversion.
- `utf8.dfy`: the UTF-8 bytes of a string, with a decoder that inverts them.
- `url_encoding.dfy`: the URL encoding of query names and values (that of
  PHP's `urlencode`) and its inverse.
- `query.dfy`: the query string built from string and integer parameters (as
  PHP's `http_build_query` builds it), with a parser that inverts it.
- `streams.dfy`: the body stream.
  - A `Stream` class with `Write` and `Rewind`, since a PSR-7 stream is
    mutable. It logs every call made on it.
  - A `Body` value for the state the request keeps.
- `request_builder.dfy`: the pure parts of `createRequest`.
  - Method validation and the error message.
  - URL joining and the request URI.
  - The header calls and their precedence.
  - The function `Build` that specifies the whole operation.
  - The loop over the overrides (`ApplyHeaders`) and the body steps (`AttachBody`).
  - The request factory (`RequestFactory`).
- `response_dispatcher.dfy`: the status classification (`Classify`) and the
  HTTP client (`Client`).
- `handler.dfy`: the `Handler` class. It holds the configuration and the two
  collaborators. Its `CreateRequest` and `ExecuteRequest` are proved against
  `Build` and `Classify`.
- `handler_scenarios.dfy`: every test case of the two test files, stated as a
  lemma about the model.

A PSR-7 request is immutable: `withHeader` and `withBody` return a new
request. So a request is a value (`RequestBuilder.Request`). It records:

- its method and URI;
- the `withHeader` calls made on it, in order;
- the calls that attached its body;
- the state of its body stream.

The request factory, the HTTP client and the body stream are objects. Each
keeps a log of the calls the handler makes on it. The logs state what the tests check with
`expects($this->once())`.

## Model

| member | source | states |
|---|---|---|
| `RequestBuilder.ParseMethod` | spec/Request/HandlerSpec.php:37-38 | a method string is accepted exactly when its upper-cased form is GET, POST, PUT or DELETE, and the accepted method's name is that upper-cased form |
| `RequestBuilder.ParseMethodName` | tests/Request/HandlerTest.php:53-77 | each of the four accepted names is recognised as its own method |
| `RequestBuilder.InvalidMethodMessage` | tests/Request/HandlerTest.php:331-335 | the invalid-method message is the method exactly as the caller wrote it, in double quotes, followed by the fixed text listing the accepted methods |
| `RequestBuilder.MethodListText` | tests/Request/HandlerTest.php:332 | the list in the message reads exactly `GET, POST, PUT, DELETE`, and the text after the quoted method is exactly the one the test expects |
| `RequestBuilder.TrimTrailingSlashes` | spec/Request/HandlerSpec.php:19 | the result is a prefix of the base URL that does not end in `/`, and everything it drops is `/` |
| `RequestBuilder.TrimLeadingSlashes` | tests/Request/HandlerTest.php:74 | the result is a suffix of the path that does not start with `/`, and everything it drops is `/` |
| `RequestBuilder.JoinUri` | spec/Request/HandlerSpec.php:19-31 | the joined URL is the base without its trailing slashes, exactly one `/`, and the path without its leading slashes: everything dropped from the path is `/` |
| `RequestBuilder.JoinUriSingleSlash` | spec/Request/HandlerSpec.php:19-31 | however many slashes end the base URL and start the path, the two are joined by exactly one slash |
| `RequestBuilder.RequestUri` | tests/Request/HandlerTest.php:199-225 | the URI starts with the joined URL; it is exactly that URL when there are no parameters; otherwise `?` follows it and the rest reads back as the parameters, in insertion order |
| `Query.ParseBuild` | tests/Request/HandlerTest.php:203-224 | parsing the built query string gives back every name and value, in insertion order |
| `Query.EncodePair` | tests/Request/HandlerTest.php:203 | an encoded `name=value` pair contains no `&`, so the pairs of a query string cannot run into each other |
| `UrlEncoding.Encode` | tests/Request/HandlerTest.php:203 | an encoded name or value contains only characters `urlencode` produces, so never `&` or `=` |
| `UrlEncoding.EncodeByte` | tests/Request/HandlerTest.php:203 | a byte is kept as its character exactly when it is an ASCII letter, digit, `-`, `_` or `.`; a space becomes `+`; every other byte becomes `%` and two upper-case hexadecimal digits |
| `UrlEncoding.DecodeEncode` | tests/Request/HandlerTest.php:203 | decoding an encoded string gives the string back |
| `UrlEncoding.EncodeUnreserved` | tests/Request/HandlerTest.php:222 | a string of letters, digits, `-`, `_` and `.` is its own encoding |
| `Utf8.DecodeEncode` | tests/Request/HandlerTest.php:222 | decoding the UTF-8 bytes of a string gives the string back |
| `Text.NatToDecimal` | tests/Request/HandlerTest.php:223 | a natural number is rendered as a non-empty run of decimal digits with no leading zero |
| `Text.IntToDecimal` | tests/Request/HandlerTest.php:223 | an integer renders as a non-empty string that starts with `-` exactly when the integer is negative, and a non-negative integer as decimal digits only |
| `Text.DecimalRoundTrip` | tests/Request/HandlerTest.php:223 | the rendered digits of a number denote that number |
| `Text.IntRoundTrip` | tests/Request/HandlerTest.php:223 | an integer parameter rendered in decimal parses back to the integer |
| `Text.Upper` | spec/Request/HandlerSpec.php:37 | upper-casing keeps the length, leaves no lower-case ASCII letter, changes nothing else, and maps each lower-case letter to its upper-case one |
| `Text.UpperIdempotent` | spec/Request/HandlerSpec.php:37-38 | upper-casing an upper-cased method changes nothing |
| `RequestBuilder.HeaderCallsWithoutOverrides` | tests/Request/HandlerTest.php:63-72 | with no overrides exactly two header calls are made: the version header, then `Content-Type: application/json` |
| `RequestBuilder.Defaults` | tests/Request/HandlerTest.php:264-326 | a default call is made for the version header and for the content type exactly when the overrides leave that header unset; the version default carries the configured version and comes first, the content type is `application/json` and comes last |
| `RequestBuilder.HeaderCalls` | tests/Request/HandlerTest.php:240-251 | the overrides are applied first, in order; after them come only defaults for reserved headers they leave unset, the version header with the configured version first and `Content-Type: application/json` last; the call count follows from that |
| `RequestBuilder.DefaultsEffective` | tests/Request/HandlerTest.php:264-326 | the default calls alone set the version header to the configured version and the content type to `application/json`, each only when the overrides leave it unset, and set nothing else |
| `RequestBuilder.HeaderPrecedence` | tests/Request/HandlerTest.php:264-326 | an overridden header keeps the caller's value; otherwise the version header gets the configured version and the content type `application/json`, so both are always set; every other header is as the overrides left it |
| `RequestBuilder.Effective` | tests/Request/HandlerTest.php:274-290 | a header has a value after a run of `withHeader` calls exactly when some call names it |
| `RequestBuilder.EffectiveAppend` | tests/Request/HandlerTest.php:240-251 | after two runs of `withHeader` calls, a header's value is the second run's when that run sets it, else the first run's |
| `RequestBuilder.HeaderCallsDistinct` | tests/Request/HandlerTest.php:253-259 | when the overrides name each header once, as PHP array keys do, every header is set by exactly one call |
| `RequestBuilder.ApplyHeaders` | tests/Request/HandlerTest.php:240-251 | the loop over the overrides, then the conditional defaults, adds exactly the specified header calls to the request |
| `RequestBuilder.Attached` | tests/Request/HandlerTest.php:103-118 | without a body the request is unchanged; with one, the calls `getBody`, `write(body)`, `rewind`, `withBody` are added once each, the body lands at the stream position, the stream is rewound, and method, URI and headers stay; from the empty stream a reader then gets exactly the body |
| `RequestBuilder.AttachBody` | tests/Request/HandlerTest.php:103-118 | the body steps produce the request `Attached` specifies; the `write` and `rewind` calls recorded are the ones the stream itself logged |
| `Streams.Written` | tests/Request/HandlerTest.php:107-110 | a write puts the data at the stream position, keeps what precedes it and what lies beyond it, and moves the position past it |
| `Streams.Rewound` | tests/Request/HandlerTest.php:112-113 | a rewind keeps the contents and makes all of them readable again |
| `Streams.WriteThenRewind` | tests/Request/HandlerTest.php:103-118 | after writing a body into the empty stream a reader gets nothing; after the rewind it gets exactly the body |
| `Streams.Stream.Write` | tests/Request/HandlerTest.php:107-110 | the stream's new state is the written state, one `write(data)` call is logged, and the number returned is the length of the data |
| `Streams.Stream.Rewind` | tests/Request/HandlerTest.php:112-113 | the stream's new state is the rewound state, and one `rewind` call is logged |
| `Streams.Stream.constructor` | tests/Request/HandlerTest.php:103-105 | `getBody` hands out a stream in the state the request holds, with no calls logged yet |
| `RequestBuilder.RequestFactory.CreateRequest` | tests/Request/HandlerTest.php:55-61 | the factory records one call with the method and URI, and returns a request with no headers and the empty body |
| `RequestBuilder.Build` | tests/Request/HandlerTest.php:53-123 | building fails exactly for an invalid method, with the message naming it; otherwise the request has the upper-cased method, the built URI, exactly the `withHeader` calls `HeaderCalls` gives (overrides first, in order, then the unset defaults), so the version and content-type headers follow precedence, no body calls without a body, and with one the four body steps, after which a reader gets exactly the body |
| `RequestBuilder.BuildCaseInsensitive` | spec/Request/HandlerSpec.php:27-39 | two spellings of a method that upper-case alike both succeed or both fail, and when valid they build the same request |
| `XApiHandler.Handler.constructor` | tests/Request/HandlerTest.php:50 | the handler keeps the client, the factory, the base URL and the version it is given |
| `XApiHandler.Handler.CreateRequest` | tests/Request/HandlerTest.php:53-77 | the result is the one `Build` specifies; the factory is asked exactly once, with the method and URI of the result, and not at all for an invalid method |
| `XApiHandler.Handler.ExecuteRequest` | spec/Request/HandlerSpec.php:89-158 | the request is sent exactly once, and the outcome is `Classify` of the client's response |
| `ResponseDispatcher.Client.SendRequest` | spec/Request/HandlerSpec.php:94 | the client records the request and answers with its response to it |
| `ResponseDispatcher.FailureFor` | spec/Request/HandlerSpec.php:89-147 | access denied exactly for 401 and 403, not found exactly for 404, conflict exactly for 409, the generic failure for all others; every failure carries the body, and the two kinds that cover several codes carry the status |
| `ResponseDispatcher.Classify` | spec/Request/HandlerSpec.php:89-158 | the response is returned exactly when its status is acceptable, and then it is the very response; otherwise the failure is the one the status calls for and carries the body |
| `ResponseDispatcher.ClassifyDependsOnMembership` | spec/Request/HandlerSpec.php:98 | the acceptable codes matter only through membership, and accepting more codes never turns a returned response into a failure |
| `ResponseDispatcher.ReservedStatusesFail` | spec/Request/HandlerSpec.php:89-135 | if no reserved status (401, 403, 404, 409) is acceptable, a reserved status always fails with its own kind |
| `HandlerScenarios.StatementsPathJoins` | spec/Request/HandlerSpec.php:19-31 | both base URLs of the tests, with and without a trailing slash, join `/statements` into `http://example.com/xapi/statements` |
| `HandlerScenarios.UnitGetRequest` | tests/Request/HandlerTest.php:53-77 | GET builds the statements URI with the two default header calls and no body calls |
| `HandlerScenarios.UnitPostRequest` | tests/Request/HandlerTest.php:79-123 | POST with a body also writes, rewinds and attaches that body |
| `HandlerScenarios.UnitPutRequest` | tests/Request/HandlerTest.php:125-169 | PUT with a body likewise |
| `HandlerScenarios.UnitDeleteRequest` | tests/Request/HandlerTest.php:171-195 | DELETE builds the statements URI with the two default header calls |
| `HandlerScenarios.UnitQueryString` | tests/Request/HandlerTest.php:199-225 | the parameters render as `statementId=…&limit=10` |
| `HandlerScenarios.UnitUrlParameters` | tests/Request/HandlerTest.php:197-228 | that query string follows the statements URI after `?` |
| `HandlerScenarios.UnitCustomHeader` | tests/Request/HandlerTest.php:230-262 | an `Authorization` override comes first, then the version and content-type defaults |
| `HandlerScenarios.UnitCustomApiVersion` | tests/Request/HandlerTest.php:264-294 | a version override suppresses the default version header: exactly the override, then the content type |
| `HandlerScenarios.UnitCustomContentType` | tests/Request/HandlerTest.php:296-326 | a content-type override suppresses the default content type: exactly the override, then the version header |
| `HandlerScenarios.RefusedByLength` | tests/Request/HandlerTest.php:328-335 | a method of five letters, or more than six, is refused whatever its letter case |
| `HandlerScenarios.OtherOverride` | tests/Request/HandlerTest.php:240-258 | a single override of a header the handler does not reserve is applied first, then both defaults |
| `HandlerScenarios.VersionOverride` | tests/Request/HandlerTest.php:274-290 | a single version override replaces the default version call; the content type follows |
| `HandlerScenarios.ContentTypeOverride` | tests/Request/HandlerTest.php:306-322 | a single content-type override is applied first and replaces the default; the version header follows |
| `HandlerScenarios.UnitInvalidMethod` | tests/Request/HandlerTest.php:328-336 | PATCH fails with exactly the message the test expects |
| `HandlerScenarios.SpecInvalidMethod` | spec/Request/HandlerSpec.php:22-25 | `options` fails |
| `HandlerScenarios.SpecGetRequest` | spec/Request/HandlerSpec.php:27-39 | `get` and `GET` build the same request, with no doubled slash after the base URL |
| `HandlerScenarios.SpecPostRequest` | spec/Request/HandlerSpec.php:41-56 | `post` and `POST` build the same request with the body attached |
| `HandlerScenarios.SpecPutRequest` | spec/Request/HandlerSpec.php:58-73 | `put` and `PUT` likewise |
| `HandlerScenarios.SpecDeleteRequest` | spec/Request/HandlerSpec.php:75-87 | `delete` and `DELETE` build the same request |
| `HandlerScenarios.SpecStatusOutcomes` | spec/Request/HandlerSpec.php:89-159 | with only 200 acceptable: 401 and 403 deny access, 404 is not found, 409 is a conflict, 204 is the generic failure, and 200 returns the response |

## Left out

- This model is derived from the handler's tests,
  tests/Request/HandlerTest.php and spec/Request/HandlerSpec.php. Where those
  tests leave a step open, the model makes an assumption, and the lines below
  name each one.
- The URL join is an assumption. The tests only join `/statements` to a base
  URL with no trailing slash or with one. The model drops every trailing `/`
  of the base and every leading `/` of the path, and puts exactly one `/`
  between them. A handler that only trims the base and appends the path would
  pass the same tests. It would differ from the model for a path without a
  leading slash, or with several.
- The quoting in the invalid-method message is an assumption. The model
  quotes the method exactly as the caller wrote it. The only test passes
  `PATCH`, which is already upper-case, so a message quoting the upper-cased
  method would pass it too.
- When a caller's acceptable codes include 401, 403, 404 or 409, the tests do
  not say which check wins. Every test accepts only 200. The model checks the
  acceptable codes first and then the fixed table. `ReservedStatusesFail`
  states that the order makes no difference whenever the acceptable codes
  include no reserved status.
- Transport failures: an exception thrown by the HTTP client's `sendRequest`
  is not modelled. The client always answers.
- The exception classes, their messages and their codes are not modelled.
  Only the failure kind, the response body and, where a kind covers several
  codes, the status are kept.
- PSR-7 header storage is not modelled. PSR-7 matches header names
  case-insensitively and `withHeader` replaces a header. The model records
  every `withHeader` call. Its `Effective` view matches names exactly, and the
  model takes the override check to match names exactly too. So an override
  named `content-type` does not suppress the default `Content-Type` call.
- Stream aliasing is not modelled. `getBody` returns a stream object that the
  request and its copies share. The model copies the stream's final state into
  the new request value.
- Override detection is an exact-key lookup in the model. If the handler uses
  `isset`, a null override value would not suppress the default. Override
  values are strings here, so that case is not modelled.
- The query string is assumed to be built as PHP's `http_build_query` builds
  it, which matches the URI the tests expect. Only string and integer values
  are modelled; nested arrays, booleans, floats and nulls are not.
- Method names are assumed to be upper-cased ASCII-only, as PHP's
  `strtoupper` does from PHP 8.2 on. The tests use ASCII method names only.
  Locale-dependent upper-casing is not modelled.
- PHP strings are byte strings. The model's strings are Unicode text, and URL
  encoding sees their UTF-8 bytes. The body stream also holds characters, not
  bytes: `Stream.Write` returns the number of characters written where PHP's
  `strlen` counts bytes, and stream positions count characters. The two agree
  for ASCII bodies such as the tests' JSON.
- Query.Build: its own contract only says that an empty parameter list
  gives an empty string. What it produces is stated by `Query.ParseBuild` and
  `HandlerScenarios.UnitQueryString`.
