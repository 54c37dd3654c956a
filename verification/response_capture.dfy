/** Capturing the provider's reply in the shape of a recorded response: the
    status, the merged header dictionary, and the parsed body. */
module ResponseCapture {
  import opened Wrappers
  import opened Http

  /** The keys already in a header dictionary. */
  function Keys(d: seq<Header>): (ks: set<string>)
    ensures forall i :: 0 <= i < |d| ==> d[i].key in ks
    ensures forall k :: k in ks ==> exists i :: 0 <= i < |d| && d[i].key == k
  {
    set i | 0 <= i < |d| :: d[i].key
  }

  /** Adding one reported header's first value to the dictionary: taking the
      first value of an empty list throws, and so does adding a key that is
      already present. */
  function AddFirstValue(d: seq<Header>, h: HeaderValues): (r: Result<seq<Header>, Failure>)
    ensures r.Success? <==> |h.values| > 0 && h.key !in Keys(d)
    ensures r.Success? ==> r.value == d + [Header(h.key, h.values[0])]
    ensures r.Failure? ==> r.error == EmptyHeaderValues(h.key) || r.error == DuplicateHeader(h.key)
    ensures r.Failure? ==> (r.error.EmptyHeaderValues? <==> |h.values| == 0)
  {
    if |h.values| == 0 then Failure(EmptyHeaderValues(h.key))
    else if h.key in Keys(d) then Failure(DuplicateHeader(h.key))
    else Success(d + [Header(h.key, h.values[0])])
  }

  /** The dictionary after adding, in order, the first value of each reported
      header. */
  function Fill(hs: seq<HeaderValues>): Result<seq<Header>, Failure>
  {
    if hs == [] then Success([])
    else
      match Fill(hs[..|hs| - 1])
      case Failure(e) => Failure(e)
      case Success(d) => AddFirstValue(d, hs[|hs| - 1])
  }

  /** Every reported header has a value and no key is reported twice. */
  predicate WellFormed(hs: seq<HeaderValues>)
  {
    && (forall i :: 0 <= i < |hs| ==> |hs[i].values| > 0)
    && (forall i, j :: 0 <= i < j < |hs| ==> hs[i].key != hs[j].key)
  }

  /** The captured header dictionary: absent when neither the response nor
      its content reports a header, otherwise the response headers followed by
      the content headers, each with its first value. */
  function ConvertedHeaders(responseHeaders: seq<HeaderValues>, contentHeaders: seq<HeaderValues>)
    : Result<Option<seq<Header>>, Failure>
  {
    if |responseHeaders| == 0 && |contentHeaders| == 0 then Success(None)
    else
      match Fill(responseHeaders + contentHeaders)
      case Failure(e) => Failure(e)
      case Success(d) => Success(Some(d))
  }

  /** The actual response: the reply's status, its converted headers, and a
      body that is absent for an empty payload and the parse of the payload
      otherwise; a payload that does not parse is an error. */
  function CapturedResponse(reply: TransportReply, env: Collaborators): Result<ProviderResponse, Failure>
  {
    match ConvertedHeaders(reply.responseHeaders, reply.contentHeaders)
    case Failure(e) => Failure(e)
    case Success(headers) =>
      if reply.payload == "" then Success(ProviderResponse(reply.status, headers, None))
      else
        match env.parse(reply.payload)
        case Malformed => Failure(MalformedBody)
        case Parsed(body) => Success(ProviderResponse(reply.status, headers, body))
  }

  /** Filling succeeds exactly when the reported headers are well formed, and
      then the dictionary holds each header with its first value, in order. */
  lemma {:induction false} FillMeaning(hs: seq<HeaderValues>)
    ensures Fill(hs).Success? <==> WellFormed(hs)
    ensures Fill(hs).Success? ==>
              && |Fill(hs).value| == |hs|
              && forall i :: 0 <= i < |hs| ==> Fill(hs).value[i] == Header(hs[i].key, hs[i].values[0])
  {
    if hs != [] {
      var init := hs[..|hs| - 1];
      var last := hs[|hs| - 1];
      FillMeaning(init);
      WellFormedSnoc(init, last);
      assert init + [last] == hs;
      if Fill(init).Success? {
        var d := Fill(init).value;
        assert Fill(hs) == AddFirstValue(d, last);
        assert last.key in Keys(d) <==> exists i :: 0 <= i < |init| && init[i].key == last.key by {
          if last.key in Keys(d) {
            var i :| 0 <= i < |d| && d[i].key == last.key;
            assert init[i].key == last.key;
          }
        }
      }
    }
  }

  /** Well-formedness of a list extended by one header. */
  lemma WellFormedSnoc(init: seq<HeaderValues>, last: HeaderValues)
    ensures WellFormed(init + [last]) <==>
              && WellFormed(init)
              && |last.values| > 0
              && forall i :: 0 <= i < |init| ==> init[i].key != last.key
  {
    var hs := init + [last];
    if WellFormed(init) && |last.values| > 0 && forall i :: 0 <= i < |init| ==> init[i].key != last.key {
      forall i, j | 0 <= i < j < |hs|
        ensures hs[i].key != hs[j].key
      {
        if j < |init| {
          assert hs[i] == init[i] && hs[j] == init[j];
        }
      }
    }
    if WellFormed(hs) {
      forall i, j | 0 <= i < j < |init|
        ensures init[i].key != init[j].key
      {
        assert hs[i] == init[i] && hs[j] == init[j];
      }
      forall i | 0 <= i < |init|
        ensures |init[i].values| > 0
      {
        assert hs[i] == init[i];
      }
      forall i | 0 <= i < |init|
        ensures init[i].key != last.key
      {
        assert hs[i] == init[i] && hs[|init|] == last;
      }
    }
  }

  /** When filling fails, it names a reported key that either has no value or
      is reported more than once. */
  lemma {:induction false} FillFailure(hs: seq<HeaderValues>)
    requires Fill(hs).Failure?
    ensures Fill(hs).error.EmptyHeaderValues? || Fill(hs).error.DuplicateHeader?
    ensures Fill(hs).error.EmptyHeaderValues? ==>
              exists i :: 0 <= i < |hs| && hs[i].key == Fill(hs).error.key && |hs[i].values| == 0
    ensures Fill(hs).error.DuplicateHeader? ==>
              exists i, j :: 0 <= i < j < |hs| && hs[i].key == Fill(hs).error.key && hs[j].key == Fill(hs).error.key
  {
    var init := hs[..|hs| - 1];
    var last := hs[|hs| - 1];
    if Fill(init).Failure? {
      FillFailure(init);
    } else {
      var d := Fill(init).value;
      FillMeaning(init);
      if |last.values| > 0 {
        var i :| 0 <= i < |d| && d[i].key == last.key;
        assert hs[i].key == d[i].key;
      }
    }
  }

  /** No headers on either side gives an absent dictionary, not an empty one;
      otherwise the dictionary lists the response headers, then the content
      headers, each with its first value. */
  lemma ConvertedHeadersMeaning(responseHeaders: seq<HeaderValues>, contentHeaders: seq<HeaderValues>)
    ensures (ConvertedHeaders(responseHeaders, contentHeaders) == Success(None))
              <==> (|responseHeaders| == 0 && |contentHeaders| == 0)
    ensures (|responseHeaders| > 0 || |contentHeaders| > 0) ==>
              (ConvertedHeaders(responseHeaders, contentHeaders).Success? <==> WellFormed(responseHeaders + contentHeaders))
    ensures ConvertedHeaders(responseHeaders, contentHeaders).Success?
            && ConvertedHeaders(responseHeaders, contentHeaders).value.Some? ==>
              var d := ConvertedHeaders(responseHeaders, contentHeaders).value.value;
              && |d| == |responseHeaders| + |contentHeaders|
              && (forall i :: 0 <= i < |responseHeaders| ==>
                    d[i].key == responseHeaders[i].key && |responseHeaders[i].values| > 0
                    && d[i].value == responseHeaders[i].values[0])
              && (forall j :: 0 <= j < |contentHeaders| ==>
                    d[|responseHeaders| + j].key == contentHeaders[j].key && |contentHeaders[j].values| > 0
                    && d[|responseHeaders| + j].value == contentHeaders[j].values[0])
  {
    var all := responseHeaders + contentHeaders;
    FillMeaning(all);
    if Fill(all).Success? {
      forall j | 0 <= j < |contentHeaders|
        ensures all[|responseHeaders| + j] == contentHeaders[j]
      {
      }
    }
  }

  /** A key reported both as a response header and as a content header makes
      the capture fail: the dictionary refuses the second insertion. */
  lemma SharedKeyFails(responseHeaders: seq<HeaderValues>, contentHeaders: seq<HeaderValues>, i: nat, j: nat)
    requires i < |responseHeaders| && j < |contentHeaders|
    requires responseHeaders[i].key == contentHeaders[j].key
    ensures ConvertedHeaders(responseHeaders, contentHeaders).Failure?
  {
    var all := responseHeaders + contentHeaders;
    FillMeaning(all);
    assert all[i].key == all[|responseHeaders| + j].key;
  }

  /** A captured response carries the reply's status; its body is absent
      exactly for an empty payload and is otherwise the parse of the payload.
      The capture succeeds exactly when the headers convert and the payload is
      empty or parses; a header failure is the capture's failure, and a
      non-empty payload that does not parse fails it as malformed. */
  lemma CapturedResponseMeaning(reply: TransportReply, env: Collaborators)
    ensures CapturedResponse(reply, env).Success? ==>
              var actual := CapturedResponse(reply, env).value;
              && actual.status == reply.status
              && Success(actual.headers) == ConvertedHeaders(reply.responseHeaders, reply.contentHeaders)
              && (reply.payload == "" ==> actual.body.None?)
              && (reply.payload != "" ==> env.parse(reply.payload) == Parsed(actual.body))
    ensures CapturedResponse(reply, env) == Failure(MalformedBody) <==>
              ConvertedHeaders(reply.responseHeaders, reply.contentHeaders).Success?
              && reply.payload != "" && env.parse(reply.payload).Malformed?
    ensures CapturedResponse(reply, env).Success? <==>
              ConvertedHeaders(reply.responseHeaders, reply.contentHeaders).Success?
              && (reply.payload == "" || env.parse(reply.payload).Parsed?)
    ensures ConvertedHeaders(reply.responseHeaders, reply.contentHeaders).Failure? ==>
              CapturedResponse(reply, env) == Failure(ConvertedHeaders(reply.responseHeaders, reply.contentHeaders).error)
  {
    FillMeaning(reply.responseHeaders + reply.contentHeaders);
    if Fill(reply.responseHeaders + reply.contentHeaders).Failure? {
      FillFailure(reply.responseHeaders + reply.contentHeaders);
    }
  }

  /** A reply with no headers and an empty payload is captured with absent
      headers and an absent body. */
  lemma EmptyReplyCapturedAsAbsent(status: int, env: Collaborators)
    ensures CapturedResponse(TransportReply(status, [], [], ""), env)
            == Success(ProviderResponse(status, None, None))
  {
  }

  /** One more header added to the dictionary. */
  lemma FillStep(hs: seq<HeaderValues>, k: nat, d: seq<Header>)
    requires k < |hs| && Fill(hs[..k]) == Success(d)
    ensures Fill(hs[..k + 1]) == AddFirstValue(d, hs[k])
  {
    assert hs[..k + 1][..k] == hs[..k];
  }

  /** One `foreach` of the conversion: adds the first value of each header of
      `hs`, in order, to a dictionary that already holds the headers of
      `added`; stops at the first insertion that throws. */
  method AddEach(added: seq<HeaderValues>, headers: seq<Header>, hs: seq<HeaderValues>)
    returns (r: Result<seq<Header>, Failure>)
    requires Fill(added) == Success(headers)
    ensures r == Fill(added + hs)
  {
    var all := added + hs;
    var d := headers;
    var i := 0;
    assert all[..|added|] == added;
    while i < |hs|
      invariant 0 <= i <= |hs|
      invariant Fill(all[..|added| + i]) == Success(d)
    {
      assert all[|added| + i] == hs[i];
      FillStep(all, |added| + i, d);
      var next := AddFirstValue(d, hs[i]);
      if next.Failure? {
        FillFailureSticks(all, |added| + i + 1);
        return Failure(next.error);
      }
      d := next.value;
      i := i + 1;
    }
    assert all[..|added| + i] == all;
    return Success(d);
  }

  /** Converts the reply's two header collections into one dictionary, adding
      the response headers first and the content headers after them. */
  method ConvertHeaders(responseHeaders: seq<HeaderValues>, contentHeaders: seq<HeaderValues>)
    returns (r: Result<Option<seq<Header>>, Failure>)
    ensures r == ConvertedHeaders(responseHeaders, contentHeaders)
  {
    if |responseHeaders| == 0 && |contentHeaders| == 0 {
      return Success(None);
    }
    assert [] + responseHeaders == responseHeaders;
    var first := AddEach([], [], responseHeaders);
    if first.Failure? {
      assert (responseHeaders + contentHeaders)[..|responseHeaders|] == responseHeaders;
      FillFailureSticks(responseHeaders + contentHeaders, |responseHeaders|);
      return Failure(first.error);
    }
    var all := AddEach(responseHeaders, first.value, contentHeaders);
    if all.Failure? {
      return Failure(all.error);
    }
    return Success(Some(all.value));
  }

  /** Once filling has failed on a prefix, the remaining headers are never added. */
  lemma {:induction false} FillFailureSticks(hs: seq<HeaderValues>, k: nat)
    requires k <= |hs|
    requires Fill(hs[..k]).Failure?
    ensures Fill(hs) == Fill(hs[..k])
    decreases |hs| - k
  {
    if k < |hs| {
      assert hs[..k + 1][..k] == hs[..k];
      FillFailureSticks(hs, k + 1);
    } else {
      assert hs[..k] == hs;
    }
  }
}
