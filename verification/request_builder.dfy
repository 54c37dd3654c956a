/** Building the outgoing request of one recorded interaction: the method from
    the verb table, the body with its media type, and every header except the
    content type. */
module RequestBuilder {
  import opened Wrappers
  import opened Http
  import opened Text

  /** Whether two keys are the same under the table's own comparer. */
  predicate SameKey(table: HeaderTable, a: string, b: string)
  {
    if table.ignoreCase then EqualsIgnoreCase(a, b) else a == b
  }

  /** The value stored under `key` in a header dictionary: that of the first
      entry whose key the dictionary's comparer matches. */
  function Lookup(entries: seq<Header>, ignoreCase: bool, key: string): (r: Option<string>)
    ensures r.Some? <==> exists i :: 0 <= i < |entries| && SameKey(HeaderTable(entries, ignoreCase), entries[i].key, key)
    ensures r.Some? ==> exists i :: 0 <= i < |entries| && entries[i].value == r.value
                                      && SameKey(HeaderTable(entries, ignoreCase), entries[i].key, key)
  {
    if entries == [] then None
    else if SameKey(HeaderTable(entries, ignoreCase), entries[0].key, key) then Some(entries[0].value)
    else
      var r := Lookup(entries[1..], ignoreCase, key);
      assert forall i :: 1 <= i < |entries| ==> entries[i] == entries[1..][i - 1];
      r
  }

  /** The content-type value a recorded request declares, if its dictionary
      finds one under "Content-Type". */
  function DeclaredContentType(t: RequestTemplate): Option<string>
  {
    if t.headers.None? then None
    else Lookup(t.headers.value.entries, t.headers.value.ignoreCase, "Content-Type")
  }

  /** The entries of a recorded request's header dictionary, none when it is null. */
  function TemplateHeaders(t: RequestTemplate): seq<Header>
  {
    if t.headers.None? then [] else t.headers.value.entries
  }

  /** The content attached to the request: none without a body; otherwise the
      serialised body, typed by the first `;`-segment of the declared content
      type when there is one and by the library default when there is not. */
  function ContentFor(t: RequestTemplate, env: Collaborators): Result<Option<Content>, Failure>
  {
    if t.body.None? then Success(None)
    else
      var text := env.serialize(t.body.value);
      match DeclaredContentType(t)
      case None => Success(Some(Content(text, LibraryDefault)))
      case Some(declared) =>
        var mediaType := FirstSegment(declared);
        if env.mediaTypeAccepted(mediaType) then Success(Some(Content(text, Explicit(mediaType))))
        else Failure(MediaTypeRejected(mediaType))
  }

  /** The headers that are not the content type, in their original order:
      the reference definition the copy loop is measured against. */
  function GenericHeaders(hs: seq<Header>): (r: seq<Header>)
    ensures |r| <= |hs|
  {
    if hs == [] then []
    else
      var init := hs[..|hs| - 1];
      var last := hs[|hs| - 1];
      assert hs == init + [last];
      GenericHeaders(init) + (if IsContentTypeKey(last.key) then [] else [last])
  }

  /** The request's header list after the copy loop has run over `hs`, adding
      each non-content-type header in turn and stopping at the first one the
      HTTP library refuses, given the headers already added. */
  function CopiedHeaders(hs: seq<Header>, env: Collaborators): Result<seq<Header>, Failure>
  {
    if hs == [] then Success([])
    else
      var last := hs[|hs| - 1];
      match CopiedHeaders(hs[..|hs| - 1], env)
      case Failure(e) => Failure(e)
      case Success(copied) =>
        if IsContentTypeKey(last.key) then Success(copied)
        else if env.headerAccepted(copied, last) then Success(copied + [last])
        else Failure(HeaderRejected(last.key))
  }

  /** The request built from a recorded one: the method the verb table gives,
      the recorded path, the content, then the copied headers. */
  function BuiltRequest(t: RequestTemplate, env: Collaborators): Result<Request, Failure>
  {
    match ContentFor(t, env)
    case Failure(e) => Failure(e)
    case Success(content) =>
      match CopiedHeaders(TemplateHeaders(t), env)
      case Failure(e) => Failure(e)
      case Success(headers) => Success(Request(HttpVerbMap()[t.verb], t.path, content, headers))
  }

  /** Filtering keeps the order: the generic headers of a concatenation are
      those of each part, one after the other. */
  lemma {:induction false} GenericHeadersAppend(a: seq<Header>, b: seq<Header>)
    ensures GenericHeaders(a + b) == GenericHeaders(a) + GenericHeaders(b)
    decreases |b|
  {
    if b == [] {
      assert a + b == a;
    } else {
      var init := b[..|b| - 1];
      var last := b[|b| - 1];
      var extra := if IsContentTypeKey(last.key) then [] else [last];
      assert (a + b)[..|a + b| - 1] == a + init;
      assert GenericHeaders(a + b) == GenericHeaders(a + init) + extra;
      GenericHeadersAppend(a, init);
      assert GenericHeaders(b) == GenericHeaders(init) + extra;
    }
  }

  /** A header is among the generic ones exactly when it is recorded and is
      not the content type. */
  lemma {:induction false} GenericHeadersMembers(hs: seq<Header>)
    ensures forall h :: h in GenericHeaders(hs) <==> h in hs && !IsContentTypeKey(h.key)
  {
    if hs != [] {
      var init := hs[..|hs| - 1];
      var last := hs[|hs| - 1];
      GenericHeadersMembers(init);
      assert hs == init + [last];
    }
  }

  /** Without a content-type header, every header is copied, unchanged and in order. */
  lemma {:induction false} GenericHeadersIdentity(hs: seq<Header>)
    requires forall i :: 0 <= i < |hs| ==> !IsContentTypeKey(hs[i].key)
    ensures GenericHeaders(hs) == hs
  {
    if hs != [] {
      var init := hs[..|hs| - 1];
      GenericHeadersIdentity(init);
      assert hs == init + [hs[|hs| - 1]];
    }
  }

  /** The HTTP library accepts the first `n` headers of `g` in turn, each
      given the ones before it. */
  ghost predicate AcceptedInOrder(g: seq<Header>, n: nat, env: Collaborators)
  {
    n <= |g| && forall j :: 0 <= j < n ==> env.headerAccepted(g[..j], g[j])
  }

  /** Acceptance of a prefix does not depend on what follows it. */
  lemma AcceptedInOrderPrefix(g: seq<Header>, extra: seq<Header>, n: nat, env: Collaborators)
    requires n <= |g|
    ensures AcceptedInOrder(g + extra, n, env) <==> AcceptedInOrder(g, n, env)
  {
    forall j | 0 <= j < n
      ensures (g + extra)[..j] == g[..j] && (g + extra)[j] == g[j]
    {
    }
  }

  /** The copy loop succeeds exactly when the HTTP library accepts each
      generic header in turn, given the generic headers before it, and then it
      has copied exactly the generic headers; when it fails, it names the
      first generic header the library refused. */
  lemma {:induction false} CopiedHeadersMeaning(hs: seq<Header>, env: Collaborators)
    ensures var g := GenericHeaders(hs);
      CopiedHeaders(hs, env).Success? <==> AcceptedInOrder(g, |g|, env)
    ensures CopiedHeaders(hs, env).Success? ==> CopiedHeaders(hs, env).value == GenericHeaders(hs)
    ensures var g := GenericHeaders(hs);
      CopiedHeaders(hs, env).Failure? ==>
        exists i :: 0 <= i < |g| && AcceptedInOrder(g, i, env) && !env.headerAccepted(g[..i], g[i])
                    && CopiedHeaders(hs, env).error == HeaderRejected(g[i].key)
  {
    if hs != [] {
      var init := hs[..|hs| - 1];
      var last := hs[|hs| - 1];
      CopiedHeadersMeaning(init, env);
      var gi := GenericHeaders(init);
      var extra := if IsContentTypeKey(last.key) then [] else [last];
      var g := gi + extra;
      assert GenericHeaders(hs) == g;
      match CopiedHeaders(init, env)
      case Failure(e) =>
        assert CopiedHeaders(hs, env) == Failure(e);
        var i :| 0 <= i < |gi| && AcceptedInOrder(gi, i, env) && !env.headerAccepted(gi[..i], gi[i])
                 && e == HeaderRejected(gi[i].key);
        AcceptedInOrderPrefix(gi, extra, i, env);
        assert g[..i] == gi[..i] && g[i] == gi[i];
        assert !AcceptedInOrder(g, |g|, env);
      case Success(copied) =>
        assert copied == gi;
        AcceptedInOrderPrefix(gi, extra, |gi|, env);
        if !IsContentTypeKey(last.key) {
          assert g[..|gi|] == gi && g[|gi|] == last;
          if env.headerAccepted(gi, last) {
            assert CopiedHeaders(hs, env) == Success(g);
            assert AcceptedInOrder(g, |g|, env);
          } else {
            assert CopiedHeaders(hs, env) == Failure(HeaderRejected(last.key));
          }
        } else {
          assert g == gi;
        }
    }
  }

  /** Once the copy loop has failed on a prefix, the rest of the headers are
      never looked at. */
  lemma {:induction false} CopiedHeadersFailureSticks(hs: seq<Header>, k: nat, env: Collaborators)
    requires k <= |hs|
    requires CopiedHeaders(hs[..k], env).Failure?
    ensures CopiedHeaders(hs, env) == CopiedHeaders(hs[..k], env)
    decreases |hs| - k
  {
    if k < |hs| {
      assert hs[..k + 1][..k] == hs[..k];
      CopiedHeadersFailureSticks(hs, k + 1, env);
    } else {
      assert hs[..k] == hs;
    }
  }

  /** A request carries content exactly when its recorded body is present;
      the content is the serialised body, typed by the first `;`-segment of
      the declared content type, or by the library default when none is
      declared. Method and path come from the verb table and the record. */
  lemma BuiltRequestContent(t: RequestTemplate, env: Collaborators)
    requires BuiltRequest(t, env).Success?
    ensures var r := BuiltRequest(t, env).value;
      && r.verb == HttpVerbMap()[t.verb]
      && r.path == t.path
      && (r.content.Some? <==> t.body.Some?)
      && (r.content.Some? ==> r.content.value.text == env.serialize(t.body.value))
      && (r.content.Some? && DeclaredContentType(t).Some? ==>
            r.content.value.mediaType == Explicit(FirstSegment(DeclaredContentType(t).value)))
      && (r.content.Some? && DeclaredContentType(t).None? ==>
            r.content.value.mediaType == LibraryDefault)
  {
  }

  /** Every recorded header that is not the content type (ignoring case) is on
      the request, with its value unchanged and in its recorded order; no
      content-type header is ever copied as a generic header. */
  lemma BuiltRequestHeaders(t: RequestTemplate, env: Collaborators)
    requires BuiltRequest(t, env).Success?
    ensures BuiltRequest(t, env).value.headers == GenericHeaders(TemplateHeaders(t))
    ensures forall h :: h in BuiltRequest(t, env).value.headers ==> !IsContentTypeKey(h.key)
    ensures forall h :: h in TemplateHeaders(t) && !IsContentTypeKey(h.key) ==> h in BuiltRequest(t, env).value.headers
  {
    CopiedHeadersMeaning(TemplateHeaders(t), env);
    GenericHeadersMembers(TemplateHeaders(t));
  }

  /** Building fails exactly when the HTTP library refuses the declared media
      type of a body, or refuses one of the generic headers given the ones
      added before it. */
  lemma BuiltRequestFails(t: RequestTemplate, env: Collaborators)
    ensures var g := GenericHeaders(TemplateHeaders(t));
      BuiltRequest(t, env).Failure? <==>
        (t.body.Some? && DeclaredContentType(t).Some?
           && !env.mediaTypeAccepted(FirstSegment(DeclaredContentType(t).value)))
        || !AcceptedInOrder(g, |g|, env)
  {
    CopiedHeadersMeaning(TemplateHeaders(t), env);
  }

  /** With a case-insensitive dictionary, a declared content type is never
      lost: whatever the spelling of its key, a body gets it as media type. */
  lemma IgnoreCaseTableKeepsContentType(t: RequestTemplate, env: Collaborators, k: nat)
    requires t.headers.Some? && t.headers.value.ignoreCase
    requires k < |t.headers.value.entries| && IsContentTypeKey(t.headers.value.entries[k].key)
    requires t.body.Some? && BuiltRequest(t, env).Success?
    ensures BuiltRequest(t, env).value.content.Some?
    ensures BuiltRequest(t, env).value.content.value.mediaType.Explicit?
  {
    var table := t.headers.value;
    assert SameKey(table, table.entries[k].key, "Content-Type");
  }

  /** With an exact-match dictionary, a body whose only content-type header is
      spelled "content-type" gets the library default media type, and the
      header is not copied either: the declared content type is lost. */
  lemma ExactTableLosesLowercaseContentType(env: Collaborators, body: Json)
    ensures var t := RequestTemplate(Post, "/things",
                                     Some(HeaderTable([Header("content-type", "text/xml")], false)),
                                     Some(body));
      && BuiltRequest(t, env).Success?
      && BuiltRequest(t, env).value.content == Some(Content(env.serialize(body), LibraryDefault))
      && BuiltRequest(t, env).value.headers == []
  {
    var hs := [Header("content-type", "text/xml")];
    var t := RequestTemplate(Post, "/things", Some(HeaderTable(hs, false)), Some(body));
    assert "content-type"[0] != "Content-Type"[0];
    assert DeclaredContentType(t) == None;
    ContentTypeSpellings();
    assert hs[..0] == [];
    assert CopiedHeaders(hs, env) == Success([]);
  }

  /** A body recorded with "Content-Type: application/json; charset=utf-8" is
      sent typed "application/json": the charset parameter is dropped, and
      only "application/json" is put to the HTTP library. */
  lemma CharsetDroppedFromMediaType(t: RequestTemplate, env: Collaborators)
    requires t.body.Some?
    requires t.headers == Some(HeaderTable([Header("Content-Type", "application/json; charset=utf-8")], true))
    ensures env.mediaTypeAccepted("application/json") ==>
      ContentFor(t, env) == Success(Some(Content(env.serialize(t.body.value), Explicit("application/json"))))
    ensures !env.mediaTypeAccepted("application/json") ==>
      ContentFor(t, env) == Failure(MediaTypeRejected("application/json"))
  {
    var table := t.headers.value;
    assert SameKey(table, table.entries[0].key, "Content-Type");
    assert DeclaredContentType(t) == Some("application/json; charset=utf-8");
    CharsetParameterDropped();
  }

  /** The transport-level request object: method and path are fixed when it is
      created, content and headers are set on it afterwards. */
  class RequestMessage {
    const verb: HttpMethod
    const path: string
    var content: Option<Content>
    var headers: seq<Header>

    constructor (verb: HttpMethod, path: string)
      ensures this.verb == verb && this.path == path
      ensures content == None && headers == []
    {
      this.verb := verb;
      this.path := path;
      content := None;
      headers := [];
    }

    /** The request as the transport sees it. */
    function Snapshot(): Request
      reads this
    {
      Request(verb, path, content, headers)
    }

    /** Attaches the content. */
    method SetContent(c: Content)
      modifies this
      ensures content == Some(c) && headers == old(headers)
    {
      content := Some(c);
    }

    /** Adds one header at the end, unless the HTTP library refuses it given
        the headers already present, in which case nothing changes and `ok`
        is false (the library throws). */
    method AddHeader(h: Header, accepts: (seq<Header>, Header) -> bool) returns (ok: bool)
      modifies this
      ensures ok == accepts(old(headers), h)
      ensures content == old(content)
      ensures headers == if ok then old(headers) + [h] else old(headers)
    {
      ok := accepts(headers, h);
      if ok {
        headers := headers + [h];
      }
    }
  }

  /** Prepares the content of the request: none without a body; otherwise the
      serialised body, typed by the first `;`-segment of the declared content
      type when there is one and by the library default when there is not. It
      fails exactly when the HTTP library refuses that declared media type. */
  method MakeContent(t: RequestTemplate, env: Collaborators) returns (r: Result<Option<Content>, Failure>)
    ensures r.Success? ==> (r.value.Some? <==> t.body.Some?)
    ensures r.Success? && r.value.Some? ==> r.value.value.text == env.serialize(t.body.value)
    ensures r.Success? && r.value.Some? && DeclaredContentType(t).Some? ==>
              r.value.value.mediaType == Explicit(FirstSegment(DeclaredContentType(t).value))
    ensures r.Success? && r.value.Some? && DeclaredContentType(t).None? ==>
              r.value.value.mediaType == LibraryDefault
    ensures r.Failure? <==>
              t.body.Some? && DeclaredContentType(t).Some?
              && !env.mediaTypeAccepted(FirstSegment(DeclaredContentType(t).value))
    ensures r.Failure? ==>
              DeclaredContentType(t).Some? && r.error == MediaTypeRejected(FirstSegment(DeclaredContentType(t).value))
    ensures r == ContentFor(t, env)
  {
    if t.body.None? {
      return Success(None);
    }
    var text := env.serialize(t.body.value);
    if t.headers.Some? && Lookup(t.headers.value.entries, t.headers.value.ignoreCase, "Content-Type").Some? {
      var mediaType := FirstSegment(Lookup(t.headers.value.entries, t.headers.value.ignoreCase, "Content-Type").value);
      if !env.mediaTypeAccepted(mediaType) {
        return Failure(MediaTypeRejected(mediaType));
      }
      return Success(Some(Content(text, Explicit(mediaType))));
    }
    return Success(Some(Content(text, LibraryDefault)));
  }

  /** The header loop: adds every header of `hs` that is not the content type
      to the request, in order, stopping at the first one the HTTP library
      refuses. Only the request's headers change. */
  method CopyHeaders(request: RequestMessage, hs: seq<Header>, env: Collaborators) returns (failure: Option<Failure>)
    requires request.headers == []
    modifies request
    ensures request.content == old(request.content)
    ensures failure.None? ==> CopiedHeaders(hs, env) == Success(request.headers)
    ensures failure.Some? ==> CopiedHeaders(hs, env) == Failure(failure.value)
  {
    var i := 0;
    while i < |hs|
      invariant 0 <= i <= |hs|
      invariant request.content == old(request.content)
      invariant CopiedHeaders(hs[..i], env) == Success(request.headers)
    {
      assert hs[..i + 1][..i] == hs[..i];
      if !IsContentTypeKey(hs[i].key) {
        var ok := request.AddHeader(hs[i], env.headerAccepted);
        if !ok {
          CopiedHeadersFailureSticks(hs, i + 1, env);
          return Some(HeaderRejected(hs[i].key));
        }
      }
      i := i + 1;
    }
    assert hs[..|hs|] == hs;
    return None;
  }

  /** Builds the request of one recorded interaction step by step; a failure
      is whatever the HTTP library throws while doing so. */
  method BuildRequest(t: RequestTemplate, env: Collaborators) returns (r: Result<RequestMessage, Failure>)
    ensures r.Success? ==> fresh(r.value) && BuiltRequest(t, env) == Success(r.value.Snapshot())
    ensures r.Failure? ==> BuiltRequest(t, env) == Failure(r.error)
  {
    var request := new RequestMessage(HttpVerbMap()[t.verb], t.path);
    var content := MakeContent(t, env);
    if content.Failure? {
      return Failure(content.error);
    }
    if content.value.Some? {
      request.SetContent(content.value.value);
    }
    if t.headers.Some? && |t.headers.value.entries| > 0 {
      var failure := CopyHeaders(request, t.headers.value.entries, env);
      if failure.Some? {
        return Failure(failure.value);
      }
    }
    return Success(request);
  }
}
