# PactNet verification driver, modelled in Dafny

This project models the verification driver of PactNet: the `PactFile` class
(`PactNet/PactFile.cs`). A pact file holds a contract between a consumer and a
provider: the two parties and the recorded interactions, kept in insertion
order. `VerifyProvider` replays every interaction against the provider:

- it prints a progress line numbered from 1;
- it rebuilds an HTTP request from the recorded one;
- it sends the request and captures the reply as a provider response;
- it hands the expected and the actual response to the response validator.

The first exception ends the run.

Modules:

- `Wrappers`: `Option` and `Result`.
- `Http`: the data shapes, the verb table `HttpVerbMap`, and the
  `Collaborators` record. That record holds every collaborator the driver
  calls but does not define. Each is a function value:
  - JSON serialisation and parsing;
  - the HTTP library's acceptance of a media type, and of a request header
    given the headers already on the request;
  - the transport;
  - the response validator.
- `Text`: the case-insensitive "Content-Type" key test, and the first
  `;`-segment of a header value (`Split(';')[0]`).
- `RequestBuilder`: the request built from a recorded interaction.
  - It holds the pure definition `BuiltRequest` and the imperative
    `BuildRequest`.
  - `BuildRequest` fills a `RequestMessage` object step by step.
  - It is proved to produce exactly `BuiltRequest`.
- `ResponseCapture`: the reply's header collections merged into one
  dictionary (`ConvertHeaders`, with its two loops), and the captured
  response.
- `Driver`: the `PactFile` class, whose methods update its interaction list in
  place.
  - `VerifyProvider` is proved equal to the pure run `Verification`.
  - The run is an event trace (progress records, requests sent, validations)
    plus an outcome: passed, or aborted at interaction `m` with a failure.

Each exception the model covers is a `Failure` value. When one occurs, the
run stops and records that failure. The failures are:

- a missing party (a null `Consumer` or `Provider`);
- a media type or header refused by the HTTP library;
- a transport failure;
- a reply header with no value, or a key reported twice;
- a malformed reply body;
- a failed validation.

The comparer used at `PactNet/PactFile.cs:74-77` depends on how the recorded
request's header dictionary was constructed, which happens outside this file.
The model makes the comparer a field of the table (`HeaderTable.ignoreCase`)
and proves both outcomes:
  - with an ignore-case comparer, the declared type is kept;
  - with an exact comparer, a key spelled `content-type` is dropped twice:
    the lookup at line 74 misses it, and the copy loop at line 93 skips it.

## Model

| member | source | states |
|---|---|---|
| Http.HttpVerbMap | PactNet/PactFile.cs:45-53 | the verb table is defined for all six verbs, maps no two verbs to the same method, and maps Patch to a method built from the literal token "PATCH" |
| Text.ContentTypeSpellings | PactNet/PactFile.cs:93 | the content-type key test accepts "Content-Type", "content-type" and "CONTENT-TYPE" and rejects "Content-Typo" and "Accept" |
| Text.FirstSegment | PactNet/PactFile.cs:77 | the media type taken from a header value is a prefix of it, holds no ';', and is followed by ';' whenever it is shorter than the value |
| Text.FirstSegmentWhole | PactNet/PactFile.cs:77 | a value without ';' is kept whole |
| Text.FirstSegmentUpTo | PactNet/PactFile.cs:77 | everything from the first ';' on is dropped |
| Text.CharsetParameterDropped | PactNet/PactFile.cs:77-78 | "application/json; charset=utf-8" yields the media type "application/json" |
| RequestBuilder.Lookup | PactNet/PactFile.cs:74-77 | a header dictionary finds a value under a key exactly when one of its entries matches the key under the dictionary's comparer, and the value found belongs to such an entry |
| RequestBuilder.GenericHeadersMembers | PactNet/PactFile.cs:90-98 | a header is copied as a generic header exactly when it is recorded and its key is not "Content-Type" in any case |
| RequestBuilder.GenericHeadersAppend | PactNet/PactFile.cs:90-98 | the copy keeps the recorded order: the generic headers of a concatenation are those of each part, one after the other |
| RequestBuilder.GenericHeadersIdentity | PactNet/PactFile.cs:90-98 | without a content-type header every recorded header is copied, unchanged and in order |
| RequestBuilder.CopiedHeadersMeaning | PactNet/PactFile.cs:88-100 | the header loop succeeds exactly when the HTTP library accepts each generic header in turn, given the generic headers added before it, and it then has added exactly the generic headers; when it throws, the failure names the first generic header the library refused |
| RequestBuilder.CopiedHeadersFailureSticks | PactNet/PactFile.cs:90-99 | once a header is refused, no later header is looked at |
| RequestBuilder.BuiltRequestContent | PactNet/PactFile.cs:67-86 | a built request has the table's method for the verb and the recorded path, and has content exactly when a body is recorded; the content is the serialised body, typed by the first segment of the declared content type when one is found and by the library default otherwise |
| RequestBuilder.BuiltRequestHeaders | PactNet/PactFile.cs:88-100 | a built request carries exactly the generic headers in recorded order: no content-type header and every other recorded header |
| RequestBuilder.BuiltRequestFails | PactNet/PactFile.cs:67-100 | building throws exactly when the library refuses the declared media type of a body, or refuses one of the generic headers given the ones added before it |
| RequestBuilder.IgnoreCaseTableKeepsContentType | PactNet/PactFile.cs:74-78 | with an ignore-case dictionary, a body always gets an explicit media type when any spelling of "Content-Type" is recorded |
| RequestBuilder.ExactTableLosesLowercaseContentType | PactNet/PactFile.cs:74-98 | with an exact-match dictionary, a recorded "content-type: text/xml" gives the body the library default type and is not copied as a header either |
| RequestBuilder.CharsetDroppedFromMediaType | PactNet/PactFile.cs:74-78 | a body whose recorded content type is "application/json; charset=utf-8" gets its serialised text typed "application/json" when the library accepts that media type; otherwise building fails with "application/json" as the rejected media type. The charset parameter never reaches the library |
| RequestBuilder.RequestMessage.constructor | PactNet/PactFile.cs:67 | a new request has the given method and path, no content and no headers |
| RequestBuilder.RequestMessage.SetContent | PactNet/PactFile.cs:85 | attaching content changes only the content |
| RequestBuilder.RequestMessage.AddHeader | PactNet/PactFile.cs:98 | a header the library accepts, given the headers already on the request, is appended; a refused one leaves the headers unchanged and is reported |
| RequestBuilder.MakeContent | PactNet/PactFile.cs:69-86 | there is content exactly when a body is recorded. It is the serialised body, typed by the first `;`-segment of the declared content type when one is found and by the library default otherwise. Preparing it fails exactly when the library refuses that declared media type, and the failure names it. The result agrees with `ContentFor`, which `BuildRequest` is proved against |
| RequestBuilder.CopyHeaders | PactNet/PactFile.cs:88-100 | the header loop leaves the content alone and ends with the headers, or the failure, that `CopiedHeaders` defines |
| RequestBuilder.BuildRequest | PactNet/PactFile.cs:67-100 | the request object built step by step is fresh and equals `BuiltRequest`, or building fails with the failure `BuiltRequest` names |
| ResponseCapture.AddFirstValue | PactNet/PactFile.cs:134 | adding a reported header succeeds exactly when it has a value and its key is new, and then appends the key with its first value; otherwise it fails naming the key, as an empty value list exactly when the list is empty |
| ResponseCapture.FillMeaning | PactNet/PactFile.cs:130-140 | filling the dictionary succeeds exactly when every reported header has a value and no key is reported twice, and then holds each key with its first value, in reported order |
| ResponseCapture.FillFailure | PactNet/PactFile.cs:132-140 | when filling throws, it names a key that has no value or that is reported twice |
| ResponseCapture.FillFailureSticks | PactNet/PactFile.cs:132-140 | once an insertion throws, no later header is added |
| ResponseCapture.ConvertedHeadersMeaning | PactNet/PactFile.cs:122-143 | the result is absent exactly when both collections are empty; otherwise it succeeds exactly when the concatenation is well formed, and lists the response headers and then the content headers, each with its first value |
| ResponseCapture.SharedKeyFails | PactNet/PactFile.cs:132-140 | a key reported both as a response header and as a content header makes the conversion throw |
| ResponseCapture.CapturedResponseMeaning | PactNet/PactFile.cs:104-114 | a captured response carries the reply's status and converted headers. Its body is absent for an empty payload and is the parse of the payload otherwise. The capture succeeds exactly when the headers convert and the payload is empty or parses. A header failure is the capture's own failure, and it fails as malformed exactly when the headers convert and a non-empty payload does not parse |
| ResponseCapture.EmptyReplyCapturedAsAbsent | PactNet/PactFile.cs:104-128 | a reply without headers or payload is captured with absent headers and an absent body |
| ResponseCapture.AddEach | PactNet/PactFile.cs:132-140 | one header loop adds the reported headers in order, ending as `Fill` of everything added so far |
| ResponseCapture.ConvertHeaders | PactNet/PactFile.cs:122-143 | the two loops compute `ConvertedHeaders` |
| Driver.Present | PactNet/PactFile.cs:165-168 | the interactions added from a list are never more than its entries and are exactly its non-null entries |
| Driver.PresentAppend | PactNet/PactFile.cs:165-168 | adding keeps order across concatenation |
| Driver.PresentAllPresent | PactNet/PactFile.cs:165-168 | a list without nulls is added whole, in order |
| Driver.NoInteractionsNoEffects | PactNet/PactFile.cs:57-60 | without interactions a run has no events and passes |
| Driver.InteractionStepShape | PactNet/PactFile.cs:65-116 | one interaction makes at most three events, all three when it passes, none exactly when a party is missing; in order they are the progress record with its number, party names and description, then the sent request built from the record, then the validation of the recorded response against the captured one, which passes exactly when the validator accepts |
| Driver.InteractionStepOutcome | PactNet/PactFile.cs:65-116 | each stage's outcome in both directions. Without both parties there are no events and the failure is the missing party. A request that cannot be built stops after the progress record with the builder's failure. A built request is always sent. A transport failure or a capture failure stops after the send with that failure. A captured reply is always validated. The interaction passes exactly when the request builds, is answered and captured, and the validator accepts |
| Driver.RunStepsAbortSticks | PactNet/PactFile.cs:63-119 | once an interaction throws, no later interaction is handled |
| Driver.RunStepsAppendAborted | PactNet/PactFile.cs:63-119 | a prefix that aborts decides the whole run |
| Driver.RunStepsAppendPassed | PactNet/PactFile.cs:62-119 | after a passing prefix the run continues on the rest with the numbering carried on |
| Driver.StepPasses | PactNet/PactFile.cs:63-118 | a passing interaction extends the events of the run so far by its own |
| Driver.StepFails | PactNet/PactFile.cs:63-118 | a failing interaction ends the whole run, aborted with its own number and failure |
| Driver.RunStepsPassedBlocks | PactNet/PactFile.cs:62-119 | in a passing run every interaction passed, numbered on in order, and the events are their three-event blocks in order |
| Driver.RunStepsAbortedShape | PactNet/PactFile.cs:62-119 | a run aborted at number `m` passed every interaction before it, failed on interaction `m` itself, and its events are the prefix's followed by interaction `m`'s |
| Driver.RunStepsProgressBound | PactNet/PactFile.cs:62-118 | every progress record carries the number of an interaction that was handled |
| Driver.RunStepsAbortBound | PactNet/PactFile.cs:62-119 | an aborted run made at most three events per interaction up to `m` and no progress record beyond `m` |
| Driver.WellBehavedPrefix | PactNet/PactFile.cs:62-118 | the per-interaction shape holds on every prefix |
| Driver.HandlerWellBehaved | PactNet/PactFile.cs:65-116 | each interaction is handled with at most three events, three when it passes, announcing only its own number |
| Driver.PassedBlock | PactNet/PactFile.cs:65-116 | the three events of a passing interaction are its progress record, the request built from its record, and its successful validation |
| Driver.PassedRunShape | PactNet/PactFile.cs:62-118 | a passing run has three events per interaction, and the k-th block is interaction k+1's progress record, built request and successful validation, in insertion order |
| Driver.AbortStopsRun | PactNet/PactFile.cs:62-119 | a run aborted at `m` has 1 <= m <= the number of interactions, interactions 1 to m-1 pass on their own, and the failure is interaction m's own |
| Driver.AbortBoundsTrace | PactNet/PactFile.cs:62-119 | an aborted run has at most three events per interaction up to `m` and no progress record numbered beyond `m`: nothing later was announced, sent or validated |
| Driver.SingleInteractionScenario | PactNet/PactFile.cs:55-120 | the run for one interaction "gets a widget" between Web and API, with an accepted reply, is exactly: progress "1) ... Web and API - gets a widget", the GET request, the validation; and it passes |
| Driver.ValidationFailureStep | PactNet/PactFile.cs:102-116 | an interaction whose captured reply fails validation still makes all three events |
| Driver.FirstFailureScenario | PactNet/PactFile.cs:55-120 | with two interactions where the first fails validation, the run aborts at 1 with three events, and no progress record for the second |
| Driver.PactFile.constructor | PactNet/PactFile.cs:29-37 | a new pact file has no parties, no interaction list, and specification version 1.0.0 |
| Driver.PactFile.AddInteraction | PactNet/PactFile.cs:145-155 | the list is created if absent, and the interaction is appended unless it is null |
| Driver.PactFile.AddInteractions | PactNet/PactFile.cs:157-169 | a null or empty input changes nothing (not even creating the list); otherwise the list becomes the old entries followed by the non-null inputs in order |
| Driver.PactFile.HandleInteraction | PactNet/PactFile.cs:65-116 | one round of the loop computes `InteractionStep` |
| Driver.PactFile.VerifyProvider | PactNet/PactFile.cs:55-120 | the run equals `Verification` of the pact file's interactions and parties |

## Left out

- JSON serialisation and parsing (camel-case property names, null fields omitted) are the function values `serialize` and `parse`, so no JSON round-trip is stated. The JSON literal `null` is taken to parse to an absent body.
- The response validator's matching rules are the function value `validate`. A throw from it is `ValidationFailed`.
- The transport is the function value `send`, with `None` for a thrown exception. Its asynchronous call and the blocking `.Result` are not modelled. The reply's text is read once and given as `payload`.
- The console: each printed progress line is a `Progress` event carrying the number, both party names and the description. The format string is not reproduced.
- The HTTP library's checks are `mediaTypeAccepted` (the `StringContent` constructor) and `headerAccepted` (`request.Headers.Add`). The header check is given the headers already on the request, so a refusal may depend on them, such as a second value for a single-valued header. The library's actual parsing and validation rules are not modelled.
- The text encoding of the content and the library's default media type are not modelled. The default is the single value `LibraryDefault`.
- `InvariantCultureIgnoreCase` is modelled as ASCII case folding only.
- The comparer of the recorded header dictionary is a field of `HeaderTable`. How that dictionary is constructed is not part of this model.
- Null values are not modelled:
  - a null request or response record;
  - a null header value;
  - a null element inside the reply's header collections;
  - a null path;
  - a reply with null header collections. In C#, a null response-header collection next to a non-empty content-header collection would throw in the first loop.
- Reading the reply's body as text (`ReadAsStringAsync().Result`, line 110) is taken to succeed. A failure of that read, for example an unknown charset in the reply's content type, is not modelled.
- An invalid path URI is not modelled, and neither is an enum value outside the six verbs.
- Aliasing: passing the pact file's own list to `AddInteractions` throws in C#, because the list changes while it is enumerated. The model takes the input as a value.
- The `Interactions` getter is the `interactions` field itself. `Consumer` and `Provider` are fields that callers assign directly. `Metadata` is the constant `specVersion`.
- The JSON serializer settings object and the validator's construction in the constructor are not modelled.
