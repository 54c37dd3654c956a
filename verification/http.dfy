/** The data shapes the verification driver works on: verbs and their method
    tokens, header tables, JSON bodies, recorded interactions, transport-level
    requests and replies, and the collaborators the driver calls but does not
    define (JSON, the HTTP library, the transport and the response validator). */
module Http {
  import opened Wrappers

  /** The closed set of verbs a recorded request may use. */
  datatype Verb = Get | Post | Put | Delete | Head | Patch

  /** A transport-level method token such as "GET". */
  datatype HttpMethod = HttpMethod(token: string)

  /** The fixed verb table: defined for every verb, no two verbs share a
      token, and PATCH is built from its literal token. */
  function HttpVerbMap(): (m: map<Verb, HttpMethod>)
    ensures forall v: Verb :: v in m
    ensures forall v, w :: v in m && w in m && v != w ==> m[v] != m[w]
    ensures m[Patch] == HttpMethod("PATCH")
  {
    var m := map[Get := HttpMethod("GET"),
                 Post := HttpMethod("POST"),
                 Put := HttpMethod("PUT"),
                 Delete := HttpMethod("DELETE"),
                 Head := HttpMethod("HEAD"),
                 Patch := HttpMethod("PATCH")];
    assert forall v: Verb :: v in m <== v.Get? || v.Post? || v.Put? || v.Delete? || v.Head? || v.Patch?;
    m
  }

  /** One single-valued header. */
  datatype Header = Header(key: string, value: string)

  /** One header as the transport reports it: a key with all of its values. */
  datatype HeaderValues = HeaderValues(key: string, values: seq<string>)

  /** A recorded request's header dictionary: its entries in enumeration order
      and whether the dictionary's key comparer ignores case. */
  datatype HeaderTable = HeaderTable(entries: seq<Header>, ignoreCase: bool)

  /** A structured JSON value. */
  datatype Json =
    | JNull
    | JBool(b: bool)
    | JNumber(n: int)
    | JString(s: string)
    | JArray(items: seq<Json>)
    | JObject(members: seq<(string, Json)>)

  /** The outcome of parsing a payload: malformed, or a value, where the JSON
      literal `null` parses to no value at all. */
  datatype JsonParse = Malformed | Parsed(value: Option<Json>)

  /** The recorded request of an interaction. */
  datatype RequestTemplate = RequestTemplate(
    verb: Verb,
    path: string,
    headers: Option<HeaderTable>,
    body: Option<Json>)

  /** The shape shared by a recorded expected response and a captured actual one. */
  datatype ProviderResponse = ProviderResponse(
    status: int,
    headers: Option<seq<Header>>,
    body: Option<Json>)

  /** One recorded consumer/provider exchange. */
  datatype Interaction = Interaction(
    description: string,
    request: RequestTemplate,
    response: ProviderResponse)

  /** A named consumer or provider. */
  datatype Party = Party(name: string)

  /** The media type of outgoing content: one given explicitly, or the
      transport library's default for string content. */
  datatype MediaType = LibraryDefault | Explicit(name: string)

  /** The outgoing body: its serialised text and its media type. */
  datatype Content = Content(text: string, mediaType: MediaType)

  /** A transport-level request as it is handed to the transport. */
  datatype Request = Request(
    verb: HttpMethod,
    path: string,
    content: Option<Content>,
    headers: seq<Header>)

  /** A transport-level reply: status code, the response-line headers, the
      content headers and the payload read as a string. */
  datatype TransportReply = TransportReply(
    status: int,
    responseHeaders: seq<HeaderValues>,
    contentHeaders: seq<HeaderValues>,
    payload: string)

  /** Why a verification run stops; each is an exception the driver does not catch. */
  datatype Failure =
    | MissingParty                      // Consumer or Provider is null when the progress line is formatted
    | MediaTypeRejected(mediaType: string) // the HTTP library refuses the explicit media type
    | HeaderRejected(key: string)       // the HTTP library refuses a request header
    | TransportFailed                   // sending the request throws
    | EmptyHeaderValues(key: string)    // a reply header has no first value
    | DuplicateHeader(key: string)      // a reply header key is added to the dictionary twice
    | MalformedBody                     // a non-empty payload is not JSON
    | ValidationFailed                  // the response validator rejects the pair

  /** The collaborators the driver calls and does not define:
      JSON serialisation and parsing, the HTTP library's checks on media types
      and request headers, the transport, and the response validator (true
      when the actual response satisfies the expected one). Whether a request
      header is accepted may depend on the headers already on the request (a
      single-valued header the request already carries is refused). */
  datatype Collaborators = Collaborators(
    serialize: Json -> string,
    parse: string -> JsonParse,
    mediaTypeAccepted: string -> bool,
    headerAccepted: (seq<Header>, Header) -> bool,
    send: Request -> Option<TransportReply>,
    validate: (ProviderResponse, ProviderResponse) -> bool)
}
