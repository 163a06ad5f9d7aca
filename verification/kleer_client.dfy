/** KleerClient: an HttpClient configured with a base address, an XML
    Accept header and the X-Token header; static builders for requests;
    a raw send and a typed send that turns a non-success status into an
    error. The transport is a parameter: a function from the message put
    on the wire to the response that comes back. */
module Client {
  import opened Errors
  import opened Text
  import opened XmlSerialization

  const DefaultBaseUrl := "https://api.kleer.se/v1/"
  const XmlMediaType := "application/xml"
  const BinaryMediaType := "application/octet-stream"
  /** The content type a StringContent carries until it is replaced. */
  const PlainTextMediaType := "text/plain; charset=utf-8"
  const AcceptHeader := "Accept"
  const TokenHeader := "X-Token"
  const TokenRequired := "API token is required"

  /** A header collection: each header name with its values in order. */
  type Headers = map<string, seq<string>>

  /** HttpHeaders.Add(name, value): appends one value to the header. */
  function WithValue(headers: Headers, name: string, value: string): (r: Headers)
    ensures r.Keys == headers.Keys + {name}
    ensures r[name] == (if name in headers then headers[name] else []) + [value]
    ensures forall n :: n in headers && n != name ==> r[n] == headers[n]
  {
    headers[name := (if name in headers then headers[name] else []) + [value]]
  }

  datatype HttpMethod = HttpMethod(name: string)

  /** A stream the caller owns; the model never reads it. */
  type StreamHandle = nat

  datatype Body = TextBody(text: string) | Bytes(bytes: seq<bv8>) | Stream(stream: StreamHandle)

  /** An HttpContent: its body and its Content-Type header. */
  datatype HttpContent = HttpContent(body: Body, contentType: Option<string>)

  /** The message the transport receives: the request after the client
      has added its base address and default headers. */
  datatype OutgoingRequest = OutgoingRequest(
    verb: HttpMethod,
    baseAddress: string,
    requestUri: string,
    headers: Headers,
    content: Option<HttpContent>)

  datatype HttpResponse = HttpResponse(status: int, body: string)

  /** HttpResponseMessage.IsSuccessStatusCode: a 2xx status. */
  function IsSuccessStatusCode(status: int): (r: bool)
    ensures r <==> status / 100 == 2
  {
    200 <= status <= 299
  }

  /** The typed send's decision: a non-success status becomes an
      HttpError carrying the status and the body text; only a success
      hands the body on to be deserialised. */
  function StatusOutcome(response: HttpResponse): (r: Result<string>)
    ensures r.Success? <==> IsSuccessStatusCode(response.status)
    ensures r.Success? ==> r.value == response.body
    ensures r.Failure? ==> r.error == HttpError(response.status, response.body)
  {
    if IsSuccessStatusCode(response.status) then Success(response.body)
    else Failure(HttpError(response.status, response.body))
  }

  /** The constructor's token check: null, empty and white-space-only
      tokens are refused with an ArgumentException naming `token`. */
  function CheckToken(token: Option<string>): (r: Result<string>)
    ensures r.Success? <==>
            token.Some? && exists i :: 0 <= i < |token.value| && !IsWhiteSpace(token.value[i])
    ensures r.Success? ==> r.value == token.value
    ensures r.Failure? ==> r.error == ArgumentError("token", TokenRequired)
  {
    if IsNullOrWhiteSpace(token) then Failure(ArgumentError("token", TokenRequired))
    else Success(token.value)
  }

  /** `baseUrl.TrimEnd('/') + "/"`: the address with every trailing
      slash removed and exactly one put back. */
  function NormalizeBaseUrl(url: string): (r: string)
    ensures |r| >= 1 && r[|r| - 1] == '/'
    ensures |r| == 1 || r[|r| - 2] != '/'
    ensures |r| - 1 <= |url| && r[..|r| - 1] == url[..|r| - 1]
    ensures forall i :: |r| - 1 <= i < |url| ==> url[i] == '/'
  {
    TrimEnd(url, '/') + "/"
  }

  /** Normalising a normalised address changes nothing. */
  lemma NormalizeIdempotent(url: string)
    ensures NormalizeBaseUrl(NormalizeBaseUrl(url)) == NormalizeBaseUrl(url)
  {
    var trimmed := TrimEnd(url, '/');
    assert NormalizeBaseUrl(url) == trimmed + ['/'];
    TrimEndAppended(trimmed, '/');
    TrimEndUntouched(trimmed, '/');
  }

  /** An extra trailing slash makes no difference. */
  lemma NormalizeIgnoresTrailingSlash(url: string)
    ensures NormalizeBaseUrl(url + "/") == NormalizeBaseUrl(url)
  {
    TrimEndAppended(url, '/');
  }

  /** ".../v1", ".../v1/" and ".../v1//" all give the base ".../v1/". */
  lemma NormalizeExample(url: string)
    requires url == "https://x.test/v1"
    ensures NormalizeBaseUrl(url) == "https://x.test/v1/"
    ensures NormalizeBaseUrl(url + "/") == "https://x.test/v1/"
    ensures NormalizeBaseUrl(url + "//") == "https://x.test/v1/"
  {
    assert TrimEnd(url, '/') == url;
    NormalizeIgnoresTrailingSlash(url);
    assert url + "//" == (url + "/") + "/";
    NormalizeIgnoresTrailingSlash(url + "/");
  }

  /** The examples of the constructor check: null, "" and "   " are
      refused, "abc" is accepted. */
  lemma TokenExamples()
    ensures CheckToken(None) == Failure(ArgumentError("token", TokenRequired))
    ensures CheckToken(Some("")) == Failure(ArgumentError("token", TokenRequired))
    ensures CheckToken(Some("   ")) == Failure(ArgumentError("token", TokenRequired))
    ensures CheckToken(Some("abc")) == Success("abc")
  {
    assert !IsWhiteSpace("abc"[0]);
  }

  /** A typed send answered with status 500 and body "oops" fails with
      HttpError(500, "oops"), never with a reader's error. */
  lemma ServerErrorSurfaces()
    ensures StatusOutcome(HttpResponse(500, "oops")) == Failure(HttpError(500, "oops"))
  {
  }

  /** An HttpRequestMessage: method and URI fixed at construction, headers
      and content set afterwards. */
  class HttpRequestMessage {
    const verb: HttpMethod
    const requestUri: string
    var headers: Headers
    var content: Option<HttpContent>

    constructor (verb: HttpMethod, requestUri: string)
      ensures this.verb == verb && this.requestUri == requestUri
      ensures headers == map[] && content == None
    {
      this.verb := verb;
      this.requestUri := requestUri;
      headers := map[];
      content := None;
    }
  }

  /** The HttpClient the Kleer client owns: its base address and its
      default request headers. */
  class HttpClient {
    const baseAddress: string
    var defaultHeaders: Headers

    constructor (baseAddress: string)
      ensures this.baseAddress == baseAddress && defaultHeaders == map[]
    {
      this.baseAddress := baseAddress;
      defaultHeaders := map[];
    }

    /** DefaultRequestHeaders.<name>.Clear(). */
    method ClearHeader(name: string)
      modifies this
      ensures defaultHeaders == old(defaultHeaders) - {name}
    {
      defaultHeaders := defaultHeaders - {name};
    }

    /** DefaultRequestHeaders.Add(name, value). */
    method AddHeader(name: string, value: string)
      modifies this
      ensures defaultHeaders == WithValue(old(defaultHeaders), name, value)
    {
      defaultHeaders := WithValue(defaultHeaders, name, value);
    }

    /** What is put on the wire: the request's own headers, plus every
        default header whose name the request does not set. */
    function Prepare(request: HttpRequestMessage): (m: OutgoingRequest)
      reads this, request
      ensures m.headers.Keys == defaultHeaders.Keys + request.headers.Keys
      ensures forall n :: n in request.headers ==> m.headers[n] == request.headers[n]
      ensures forall n :: n in defaultHeaders && n !in request.headers ==> m.headers[n] == defaultHeaders[n]
    {
      OutgoingRequest(request.verb, baseAddress, request.requestUri,
                      defaultHeaders + request.headers, request.content)
    }
  }

  class KleerClient {
    const httpClient: HttpClient
    /** The token the client was created with; the client never reads it
        again, it only lives on in the default headers. */
    ghost const token: string
    /** The base URL the client was created with. */
    ghost const baseUrl: string

    /** Every request sent carries the XML Accept value and the token. */
    ghost predicate Valid()
      reads this, httpClient
    {
      && !IsNullOrWhiteSpace(Some(token))
      && httpClient.defaultHeaders == map[AcceptHeader := [XmlMediaType], TokenHeader := [token]]
      && httpClient.baseAddress == NormalizeBaseUrl(baseUrl)
    }

    constructor (httpClient: HttpClient, ghost token: string, ghost baseUrl: string)
      ensures this.httpClient == httpClient && this.token == token && this.baseUrl == baseUrl
    {
      this.httpClient := httpClient;
      this.token := token;
      this.baseUrl := baseUrl;
    }

    /** `new KleerClient(token, baseUrl)`: the token is checked before
        anything is created; a null base URL fails on TrimEnd. */
    static method New(token: Option<string>, baseUrl: Option<string> := Some(DefaultBaseUrl))
      returns (r: Result<KleerClient>)
      ensures IsNullOrWhiteSpace(token) ==> r == Failure(ArgumentError("token", TokenRequired))
      ensures !IsNullOrWhiteSpace(token) && baseUrl.None? ==> r == Failure(NullReference)
      ensures !IsNullOrWhiteSpace(token) && baseUrl.Some? ==>
                && r.Success? && fresh(r.value) && fresh(r.value.httpClient)
                && r.value.Valid() && r.value.token == token.value && r.value.baseUrl == baseUrl.value
                && r.value.httpClient.baseAddress == NormalizeBaseUrl(baseUrl.value)
    {
      var checkedToken := CheckToken(token);
      if checkedToken.Failure? {
        return Failure(checkedToken.error);
      }
      if baseUrl.None? {
        return Failure(NullReference);
      }
      var base := NormalizeBaseUrl(baseUrl.value);
      var http := new HttpClient(base);
      http.ClearHeader(AcceptHeader);
      http.AddHeader(AcceptHeader, XmlMediaType);
      http.AddHeader(TokenHeader, token.value);
      assert [] + [XmlMediaType] == [XmlMediaType] && [] + [token.value] == [token.value];
      assert http.defaultHeaders == map[AcceptHeader := [XmlMediaType], TokenHeader := [token.value]];
      var client := new KleerClient(http, token.value, baseUrl.value);
      r := Success(client);
    }

    /** BuildRequest: a request that asks for XML; nothing of any client
        is read. */
    static method BuildRequest(verb: HttpMethod, endpoint: string) returns (request: HttpRequestMessage)
      ensures fresh(request)
      ensures request.verb == verb && request.requestUri == endpoint
      ensures request.headers == map[AcceptHeader := [XmlMediaType]] && request.content == None
    {
      request := new HttpRequestMessage(verb, endpoint);
      request.headers := WithValue(request.headers, AcceptHeader, XmlMediaType);
      assert [] + [XmlMediaType] == [XmlMediaType];
    }

    /** BuildXmlRequest: as BuildRequest, with the payload serialised to
        XML as the body and Content-Type application/xml. A null payload
        makes Serialize throw, and no request is returned. */
    static method BuildXmlRequest<V>(
      serializer: KleerXmlSerializer, t: TypeRef,
      verb: HttpMethod, endpoint: string, data: Option<V>,
      write: (Serializer, WriterSettings, V) -> string)
      returns (r: Result<HttpRequestMessage>)
      requires serializer.Valid() && t.assembly in serializer.assemblies
      modifies serializer
      ensures serializer.Valid()
      ensures data.None? ==> r == Failure(ArgumentNull("obj")) && unchanged(serializer)
      ensures data.Some? ==>
                && serializer.GotOrAdded(t)
                && r.Success? && fresh(r.value)
                && r.value.verb == verb && r.value.requestUri == endpoint
                && r.value.headers == map[AcceptHeader := [XmlMediaType]]
                && r.value.content == Some(HttpContent(
                     TextBody(write(serializer.serializerCache[t], OutputSettings, data.value)),
                     Some(XmlMediaType)))
    {
      var request := BuildRequest(verb, endpoint);
      var xml := serializer.Serialize(t, data, write);
      if xml.Failure? {
        return Failure(xml.error);
      }
      request.content := Some(HttpContent(TextBody(xml.value), Some(PlainTextMediaType)));
      request.content := Some(request.content.value.(contentType := Some(XmlMediaType)));
      r := Success(request);
    }

    /** BuildBinaryRequest(byte[]): the bytes as an octet-stream body. */
    static method BuildBinaryRequest(verb: HttpMethod, endpoint: string, data: seq<bv8>)
      returns (request: HttpRequestMessage)
      ensures fresh(request)
      ensures request.verb == verb && request.requestUri == endpoint
      ensures request.headers == map[AcceptHeader := [XmlMediaType]]
      ensures request.content == Some(HttpContent(Bytes(data), Some(BinaryMediaType)))
    {
      request := new HttpRequestMessage(verb, endpoint);
      request.content := Some(HttpContent(Bytes(data), None));
      request.content := Some(request.content.value.(contentType := Some(BinaryMediaType)));
      request.headers := WithValue(request.headers, AcceptHeader, XmlMediaType);
      assert [] + [XmlMediaType] == [XmlMediaType];
    }

    /** BuildBinaryRequest(Stream): the stream as an octet-stream body. */
    static method BuildStreamRequest(verb: HttpMethod, endpoint: string, stream: StreamHandle)
      returns (request: HttpRequestMessage)
      ensures fresh(request)
      ensures request.verb == verb && request.requestUri == endpoint
      ensures request.headers == map[AcceptHeader := [XmlMediaType]]
      ensures request.content == Some(HttpContent(Stream(stream), Some(BinaryMediaType)))
    {
      request := new HttpRequestMessage(verb, endpoint);
      request.content := Some(HttpContent(Stream(stream), None));
      request.content := Some(request.content.value.(contentType := Some(BinaryMediaType)));
      request.headers := WithValue(request.headers, AcceptHeader, XmlMediaType);
      assert [] + [XmlMediaType] == [XmlMediaType];
    }

    /** SendAsync(request): the default headers are copied into the
        caller's request, which then goes on the wire; whatever comes back
        is returned as it is, whatever its status. Preparing the updated
        request again gives the same message. */
    method SendAsync(request: HttpRequestMessage, transport: OutgoingRequest -> HttpResponse)
      returns (response: HttpResponse)
      modifies request
      ensures request.headers == old(httpClient.Prepare(request)).headers
      ensures request.content == old(request.content)
      ensures httpClient.Prepare(request) == old(httpClient.Prepare(request))
      ensures response == transport(httpClient.Prepare(request))
    {
      var message := httpClient.Prepare(request);
      request.headers := message.headers;
      assert httpClient.defaultHeaders + message.headers == message.headers;
      response := transport(message);
    }

    /** SendAsync<T>(request): a non-success status fails with the status
        and the body; a success is deserialised by the serializer for T. */
    method SendAsyncTyped<V>(
      request: HttpRequestMessage, transport: OutgoingRequest -> HttpResponse,
      serializer: KleerXmlSerializer, t: TypeRef, read: (Serializer, string) -> Result<V>)
      returns (r: Result<V>)
      requires serializer.Valid() && t.assembly in serializer.assemblies
      modifies serializer, request
      ensures serializer.Valid()
      ensures request.headers == old(httpClient.Prepare(request)).headers
      ensures request.content == old(request.content)
      ensures var response := transport(old(httpClient.Prepare(request)));
              && (!IsSuccessStatusCode(response.status) ==>
                    r == Failure(HttpError(response.status, response.body)) && unchanged(serializer))
              && (IsSuccessStatusCode(response.status) ==>
                    serializer.GotOrAdded(t) && r == read(serializer.serializerCache[t], response.body))
    {
      var response := SendAsync(request, transport);
      var outcome := StatusOutcome(response);
      if outcome.Failure? {
        return Failure(outcome.error);
      }
      r := serializer.Deserialize(t, Some(outcome.value), read);
    }

    /** SerializeToXml: null is refused here already; otherwise the result
        of KleerXmlSerializer.Serialize. */
    static method SerializeToXml<V>(
      serializer: KleerXmlSerializer, t: TypeRef, obj: Option<V>,
      write: (Serializer, WriterSettings, V) -> string)
      returns (r: Result<string>)
      requires serializer.Valid() && t.assembly in serializer.assemblies
      modifies serializer
      ensures serializer.Valid()
      ensures obj.None? ==> r == Failure(ArgumentNull("obj")) && unchanged(serializer)
      ensures obj.Some? ==>
                serializer.GotOrAdded(t) &&
                r == Success(write(serializer.serializerCache[t], OutputSettings, obj.value))
    {
      if obj.None? {
        return Failure(ArgumentNull("obj"));
      }
      r := serializer.Serialize(t, obj, write);
    }
  }

  /** Every request a valid client sends carries the token verbatim,
      unless the request sets its own X-Token, whose value then wins; it
      asks for XML unless the request set its own Accept header. */
  lemma SentHeaders(c: KleerClient, request: HttpRequestMessage)
    requires c.Valid() && TokenHeader !in request.headers
    ensures c.httpClient.Prepare(request).headers[TokenHeader] == [c.token]
    ensures AcceptHeader !in request.headers ==>
              c.httpClient.Prepare(request).headers[AcceptHeader] == [XmlMediaType]
  {
  }
}
