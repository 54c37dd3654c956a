/** The verification driver: a contract between a consumer and a provider, its
    recorded interactions in insertion order, and the run that replays each
    interaction against the provider and hands the expected and actual
    responses to the validator, stopping at the first failure. */
module Driver {
  import opened Wrappers
  import opened Http
  import opened RequestBuilder
  import opened ResponseCapture

  /** What a run makes observable, in order: a progress record before each
      interaction, each request handed to the transport, and each pair handed
      to the validator. */
  datatype Event =
    | Progress(number: nat, consumer: string, provider: string, description: string)
    | Sent(request: Request)
    | Validated(expected: ProviderResponse, actual: ProviderResponse)

  /** How a run ends: every interaction passed, or the run was aborted while
      handling the interaction with the given sequence number. */
  datatype Outcome = Passed | Aborted(number: nat, failure: Failure)

  datatype Run = Run(events: seq<Event>, outcome: Outcome)

  /** The effect of handling one interaction: its events and, if it threw, why. */
  datatype Step = Step(events: seq<Event>, failure: Option<Failure>)

  /** The recorded interactions, none while the list has never been created. */
  function Items(interactions: Option<seq<Interaction>>): seq<Interaction>
  {
    if interactions.None? then [] else interactions.value
  }

  /** The interactions that are not null, in their given order. */
  function Present(xs: seq<Option<Interaction>>): (r: seq<Interaction>)
    ensures |r| <= |xs|
    ensures forall x :: x in r <==> Some(x) in xs
  {
    if xs == [] then []
    else
      var init := xs[..|xs| - 1];
      var last := xs[|xs| - 1];
      assert xs == init + [last];
      Present(init) + (if last.Some? then [last.value] else [])
  }

  /** Handling interaction number `number`: format the progress record, build
      the request, send it, capture the reply, and validate it. */
  function InteractionStep(number: nat, consumer: Option<Party>, provider: Option<Party>,
                           x: Interaction, env: Collaborators): Step
  {
    if consumer.None? || provider.None? then Step([], Some(MissingParty))
    else
      var progress := [Progress(number, consumer.value.name, provider.value.name, x.description)];
      match BuiltRequest(x.request, env)
      case Failure(e) => Step(progress, Some(e))
      case Success(request) =>
        var sent := progress + [Sent(request)];
        match env.send(request)
        case None => Step(sent, Some(TransportFailed))
        case Some(reply) =>
          match CapturedResponse(reply, env)
          case Failure(e) => Step(sent, Some(e))
          case Success(actual) =>
            Step(sent + [Validated(x.response, actual)],
                 if env.validate(x.response, actual) then None else Some(ValidationFailed))
  }

  /** Handling the interactions `xs` in order with `handle`, the first one
      numbered `number`, stopping at the first one that throws: the state the
      driver's loop reaches after `|xs|` rounds, whatever handling one
      interaction involves. */
  function RunSteps(xs: seq<Interaction>, number: nat, handle: (nat, Interaction) -> Step): Run
    decreases |xs|
  {
    if xs == [] then Run([], Passed)
    else
      var before := RunSteps(xs[..|xs| - 1], number, handle);
      if before.outcome.Aborted? then before
      else
        var n := number + |xs| - 1;
        var step := handle(n, xs[|xs| - 1]);
        Run(before.events + step.events, if step.failure.Some? then Aborted(n, step.failure.value) else Passed)
  }

  /** How the driver handles one interaction, for fixed parties and collaborators. */
  function Handler(consumer: Option<Party>, provider: Option<Party>, env: Collaborators): (nat, Interaction) -> Step
  {
    (number: nat, x: Interaction) => InteractionStep(number, consumer, provider, x, env)
  }

  /** A whole verification run: nothing at all without interactions, otherwise
      the interactions in insertion order, numbered from 1. */
  function Verification(interactions: Option<seq<Interaction>>, consumer: Option<Party>, provider: Option<Party>,
                        env: Collaborators): Run
  {
    if interactions.None? || |interactions.value| == 0 then Run([], Passed)
    else RunSteps(interactions.value, 1, Handler(consumer, provider, env))
  }

  /** Null entries are skipped and the order is kept: the present entries of
      a concatenation are those of each part, one after the other. */
  lemma {:induction false} PresentAppend(a: seq<Option<Interaction>>, b: seq<Option<Interaction>>)
    ensures Present(a + b) == Present(a) + Present(b)
    decreases |b|
  {
    if b == [] {
      assert a + b == a;
    } else {
      assert (a + b)[..|a + b| - 1] == a + b[..|b| - 1];
      PresentAppend(a, b[..|b| - 1]);
    }
  }

  /** Without null entries, every entry is added, in order. */
  lemma {:induction false} PresentAllPresent(xs: seq<Option<Interaction>>)
    requires forall i :: 0 <= i < |xs| ==> xs[i].Some?
    ensures |Present(xs)| == |xs|
    ensures forall i :: 0 <= i < |xs| ==> Present(xs)[i] == xs[i].value
  {
    if xs != [] {
      var init := xs[..|xs| - 1];
      PresentAllPresent(init);
      assert Present(xs) == Present(init) + [xs[|xs| - 1].value];
      forall i | 0 <= i < |xs|
        ensures Present(xs)[i] == xs[i].value
      {
        if i < |init| {
          assert Present(xs)[i] == Present(init)[i];
          assert init[i] == xs[i];
        }
      }
    }
  }

  /** A contract without interactions verifies trivially: no progress record,
      no request sent, no validation. */
  lemma NoInteractionsNoEffects(interactions: Option<seq<Interaction>>, consumer: Option<Party>,
                                provider: Option<Party>, env: Collaborators)
    requires interactions.None? || interactions.value == []
    ensures Verification(interactions, consumer, provider, env) == Run([], Passed)
  {
  }

  /** One interaction handled: at most three events, all three when it
      passes; the progress record comes first and carries its number, the
      party names and its description; then the built request is sent; then
      the recorded and the captured response go to the validator. */
  lemma InteractionStepShape(number: nat, consumer: Option<Party>, provider: Option<Party>,
                             x: Interaction, env: Collaborators)
    ensures var s := InteractionStep(number, consumer, provider, x, env);
      && |s.events| <= 3
      && (s.failure.None? ==> |s.events| == 3)
      && (|s.events| == 0 <==> consumer.None? || provider.None?)
      && (|s.events| == 0 ==> s.failure == Some(MissingParty))
      && (|s.events| > 0 ==>
            s.events[0] == Progress(number, consumer.value.name, provider.value.name, x.description))
      && (|s.events| > 1 ==> s.events[1].Sent? && BuiltRequest(x.request, env) == Success(s.events[1].request))
      && (|s.events| > 2 ==>
            && s.events[2].Validated? && s.events[2].expected == x.response
            && env.send(s.events[1].request).Some?
            && CapturedResponse(env.send(s.events[1].request).value, env) == Success(s.events[2].actual)
            && (s.failure.None? <==> env.validate(x.response, s.events[2].actual)))
  {
  }

  /** How one interaction ends, stage by stage: without both parties nothing
      happens; a request that cannot be built stops after the progress record;
      a built request is always sent, and a transport or capture failure stops
      there; a captured reply is always validated. The interaction passes
      exactly when every stage succeeds and the validator accepts. */
  lemma InteractionStepOutcome(number: nat, consumer: Option<Party>, provider: Option<Party>,
                               x: Interaction, env: Collaborators)
    ensures var s := InteractionStep(number, consumer, provider, x, env);
            var built := BuiltRequest(x.request, env);
            var ready := consumer.Some? && provider.Some?;
      && (!ready ==> s == Step([], Some(MissingParty)))
      && (ready && built.Failure? ==> |s.events| == 1 && s.failure == Some(built.error))
      && (ready && built.Success? ==> |s.events| >= 2 && s.events[1] == Sent(built.value))
      && (ready && built.Success? && env.send(built.value).None? ==>
            |s.events| == 2 && s.failure == Some(TransportFailed))
      && (ready && built.Success? && env.send(built.value).Some?
          && CapturedResponse(env.send(built.value).value, env).Failure? ==>
            |s.events| == 2 && s.failure == Some(CapturedResponse(env.send(built.value).value, env).error))
      && (ready && built.Success? && env.send(built.value).Some?
          && CapturedResponse(env.send(built.value).value, env).Success? ==>
            |s.events| == 3
            && s.events[2] == Validated(x.response, CapturedResponse(env.send(built.value).value, env).value))
      && (s.failure.None? <==>
            ready && built.Success? && env.send(built.value).Some?
            && CapturedResponse(env.send(built.value).value, env).Success?
            && env.validate(x.response, CapturedResponse(env.send(built.value).value, env).value))
  {
  }

  /** Once a prefix of the interactions has aborted the run, the rest are
      never handled. */
  lemma {:induction false} RunStepsAbortSticks(xs: seq<Interaction>, k: nat, number: nat,
                                               handle: (nat, Interaction) -> Step)
    requires k <= |xs|
    requires RunSteps(xs[..k], number, handle).outcome.Aborted?
    ensures RunSteps(xs, number, handle) == RunSteps(xs[..k], number, handle)
    decreases |xs| - k
  {
    if k < |xs| {
      assert xs[..k + 1][..k] == xs[..k];
      RunStepsAbortSticks(xs, k + 1, number, handle);
    } else {
      assert xs[..k] == xs;
    }
  }

  /** Fail-fast: a prefix that aborts decides the whole run, so no later
      interaction is ever handled. */
  lemma RunStepsAppendAborted(a: seq<Interaction>, b: seq<Interaction>, number: nat,
                              handle: (nat, Interaction) -> Step)
    requires RunSteps(a, number, handle).outcome.Aborted?
    ensures RunSteps(a + b, number, handle) == RunSteps(a, number, handle)
  {
    assert (a + b)[..|a|] == a;
    RunStepsAbortSticks(a + b, |a|, number, handle);
  }

  /** Runs compose: after a prefix that passes, the rest runs on with the
      numbering continued. */
  lemma {:induction false} RunStepsAppendPassed(a: seq<Interaction>, b: seq<Interaction>, number: nat,
                                                handle: (nat, Interaction) -> Step)
    requires RunSteps(a, number, handle).outcome.Passed?
    ensures RunSteps(a + b, number, handle)
            == Run(RunSteps(a, number, handle).events + RunSteps(b, number + |a|, handle).events,
                   RunSteps(b, number + |a|, handle).outcome)
    decreases |b|
  {
    if b == [] {
      assert a + b == a;
    } else {
      var init := b[..|b| - 1];
      var last := b[|b| - 1];
      assert (a + b)[..|a + b| - 1] == a + init;
      assert (a + b)[|a + b| - 1] == last;
      RunStepsAppendPassed(a, init, number, handle);
      var head := RunSteps(a, number, handle).events;
      var rest := RunSteps(init, number + |a|, handle);
      if rest.outcome.Passed? {
        var step := handle(number + |a| + |init|, last);
        assert (head + rest.events) + step.events == head + (rest.events + step.events);
      }
    }
  }

  /** A run that passes handled every interaction, in order and numbered on
      from `number`, each without failure; with a well-behaved handler, the
      run's events are those of each interaction, three by three, in order. */
  lemma {:induction false} RunStepsPassedBlocks(xs: seq<Interaction>, number: nat, handle: (nat, Interaction) -> Step)
    requires RunSteps(xs, number, handle).outcome.Passed?
    requires WellBehaved(xs, number, handle)
    ensures |RunSteps(xs, number, handle).events| == 3 * |xs|
    ensures forall k :: 0 <= k < |xs| ==>
              && handle(number + k, xs[k]).failure.None?
              && RunSteps(xs, number, handle).events[3 * k .. 3 * k + 3] == handle(number + k, xs[k]).events
    decreases |xs|
  {
    if xs != [] {
      var init := xs[..|xs| - 1];
      var before := RunSteps(init, number, handle);
      var step := handle(number + |init|, xs[|init|]);
      WellBehavedPrefix(xs, |init|, number, handle);
      RunStepsPassedBlocks(init, number, handle);
      var events := RunSteps(xs, number, handle).events;
      assert events == before.events + step.events;
      assert Announces(number + |init|, step);
      forall k | 0 <= k < |xs|
        ensures handle(number + k, xs[k]).failure.None?
        ensures events[3 * k .. 3 * k + 3] == handle(number + k, xs[k]).events
      {
        if k < |init| {
          assert xs[k] == init[k];
          assert events[3 * k .. 3 * k + 3] == before.events[3 * k .. 3 * k + 3];
        } else {
          assert events[3 * k .. 3 * k + 3] == step.events;
        }
      }
    }
  }

  /** A run aborted at interaction `m` passed every interaction before it and
      then failed on interaction `m` itself: its events are those of the
      passing prefix followed by those of interaction `m`, and nothing after. */
  lemma {:induction false} RunStepsAbortedShape(xs: seq<Interaction>, number: nat, handle: (nat, Interaction) -> Step)
    requires RunSteps(xs, number, handle).outcome.Aborted?
    ensures number <= RunSteps(xs, number, handle).outcome.number < number + |xs|
    ensures var j := RunSteps(xs, number, handle).outcome.number - number;
      && RunSteps(xs[..j], number, handle).outcome.Passed?
      && handle(number + j, xs[j]).failure == Some(RunSteps(xs, number, handle).outcome.failure)
      && RunSteps(xs, number, handle).events == RunSteps(xs[..j], number, handle).events + handle(number + j, xs[j]).events
    decreases |xs|
  {
    var init := xs[..|xs| - 1];
    var before := RunSteps(init, number, handle);
    if before.outcome.Aborted? {
      RunStepsAbortedShape(init, number, handle);
      var j := before.outcome.number - number;
      assert xs[..j] == init[..j] && xs[j] == init[j];
    }
  }

  /** The run over the first `i + 1` interactions extends the run over the
      first `i` by the step of interaction `i + 1` when that step passes. */
  lemma StepPasses(xs: seq<Interaction>, i: nat, handle: (nat, Interaction) -> Step)
    requires i < |xs|
    requires RunSteps(xs[..i], 1, handle).outcome.Passed?
    requires handle(i + 1, xs[i]).failure.None?
    ensures RunSteps(xs[..i + 1], 1, handle)
            == Run(RunSteps(xs[..i], 1, handle).events + handle(i + 1, xs[i]).events, Passed)
  {
    assert xs[..i + 1][..i] == xs[..i];
  }

  /** When the step of interaction `i + 1` fails after a passing prefix, it
      decides the run over all the interactions. */
  lemma StepFails(xs: seq<Interaction>, i: nat, handle: (nat, Interaction) -> Step)
    requires i < |xs|
    requires RunSteps(xs[..i], 1, handle).outcome.Passed?
    requires handle(i + 1, xs[i]).failure.Some?
    ensures RunSteps(xs, 1, handle)
            == Run(RunSteps(xs[..i], 1, handle).events + handle(i + 1, xs[i]).events,
                   Aborted(i + 1, handle(i + 1, xs[i]).failure.value))
  {
    assert xs[..i + 1][..i] == xs[..i];
    RunStepsAbortSticks(xs, i + 1, 1, handle);
  }

  /** With a well-behaved handler, every progress record of a run, passing
      or not, carries the number of one of the interactions handled. */
  lemma {:induction false} RunStepsProgressBound(xs: seq<Interaction>, number: nat, handle: (nat, Interaction) -> Step)
    requires WellBehaved(xs, number, handle)
    ensures forall i :: 0 <= i < |RunSteps(xs, number, handle).events| && RunSteps(xs, number, handle).events[i].Progress?
              ==> number <= RunSteps(xs, number, handle).events[i].number < number + |xs|
    decreases |xs|
  {
    if xs != [] {
      var init := xs[..|xs| - 1];
      var before := RunSteps(init, number, handle);
      var step := handle(number + |init|, xs[|init|]);
      WellBehavedPrefix(xs, |init|, number, handle);
      RunStepsProgressBound(init, number, handle);
      assert Announces(number + |init|, step);
      var events := RunSteps(xs, number, handle).events;
      if before.outcome.Passed? {
        forall i | 0 <= i < |events| && events[i].Progress?
          ensures number <= events[i].number < number + |xs|
        {
          if i < |before.events| {
            assert events[i] == before.events[i];
          } else {
            assert events[i] == step.events[i - |before.events|];
          }
        }
      }
    }
  }

  /** A run that passes handled every interaction in insertion order: three
      events per interaction; the k-th progress record carries number k + 1,
      the party names and the k-th description; the k-th request sent is the
      one built from the k-th record; and the k-th recorded response is
      validated, successfully, against the response captured for it. */
  lemma PassedRunShape(xs: seq<Interaction>, consumer: Option<Party>, provider: Option<Party>, env: Collaborators)
    requires Verification(Some(xs), consumer, provider, env).outcome.Passed?
    ensures |Verification(Some(xs), consumer, provider, env).events| == 3 * |xs|
    ensures forall k :: 0 <= k < |xs| ==>
              PassingBlock(Verification(Some(xs), consumer, provider, env).events, k, consumer, provider, xs[k], env)
  {
    if xs != [] {
      var h := Handler(consumer, provider, env);
      HandlerWellBehaved(xs, consumer, provider, env);
      RunStepsPassedBlocks(xs, 1, h);
      forall k | 0 <= k < |xs|
        ensures PassingBlock(RunSteps(xs, 1, h).events, k, consumer, provider, xs[k], env)
      {
        PassedBlock(RunSteps(xs, 1, h).events, k, consumer, provider, xs[k], env);
      }
    }
  }

  /** Events `3k` to `3k + 2` of a run are those of a passing interaction `x`
      numbered `k + 1`: its progress record, the request built from its
      record as sent, and the validation, successful, of its recorded
      response against the response captured from the reply to that request. */
  ghost predicate PassingBlock(events: seq<Event>, k: nat, consumer: Option<Party>, provider: Option<Party>,
                               x: Interaction, env: Collaborators)
  {
    && 3 * k + 3 <= |events|
    && consumer.Some? && provider.Some?
    && events[3 * k] == Progress(k + 1, consumer.value.name, provider.value.name, x.description)
    && events[3 * k + 1].Sent? && BuiltRequest(x.request, env) == Success(events[3 * k + 1].request)
    && events[3 * k + 2].Validated? && events[3 * k + 2].expected == x.response
    && env.send(events[3 * k + 1].request).Some?
    && CapturedResponse(env.send(events[3 * k + 1].request).value, env) == Success(events[3 * k + 2].actual)
    && env.validate(x.response, events[3 * k + 2].actual)
  }

  /** The three events of a passing interaction form a passing block. */
  lemma PassedBlock(events: seq<Event>, k: nat, consumer: Option<Party>, provider: Option<Party>,
                    x: Interaction, env: Collaborators)
    requires 3 * k + 3 <= |events|
    requires InteractionStep(k + 1, consumer, provider, x, env).failure.None?
    requires events[3 * k .. 3 * k + 3] == InteractionStep(k + 1, consumer, provider, x, env).events
    ensures PassingBlock(events, k, consumer, provider, x, env)
  {
    var s := InteractionStep(k + 1, consumer, provider, x, env);
    InteractionStepShape(k + 1, consumer, provider, x, env);
    assert events[3 * k] == s.events[0];
    assert events[3 * k + 1] == s.events[1];
    assert events[3 * k + 2] == s.events[2];
  }

  /** A step that makes at most three events, exactly three when it passes,
      and whose progress records all carry the number `n`. */
  ghost predicate Announces(n: nat, step: Step)
  {
    && |step.events| <= 3
    && (step.failure.None? ==> |step.events| == 3)
    && (forall i :: 0 <= i < |step.events| && step.events[i].Progress? ==> step.events[i].number == n)
  }

  /** Every interaction of `xs`, numbered on from `number`, is handled by a
      step that announces its own number. */
  ghost predicate WellBehaved(xs: seq<Interaction>, number: nat, handle: (nat, Interaction) -> Step)
  {
    forall k :: 0 <= k < |xs| ==> Announces(number + k, handle(number + k, xs[k]))
  }

  /** A well-behaved list stays well behaved when cut short. */
  lemma WellBehavedPrefix(xs: seq<Interaction>, j: nat, number: nat, handle: (nat, Interaction) -> Step)
    requires j <= |xs| && WellBehaved(xs, number, handle)
    ensures WellBehaved(xs[..j], number, handle)
  {
    forall k | 0 <= k < j
      ensures Announces(number + k, handle(number + k, xs[..j][k]))
    {
      assert xs[..j][k] == xs[k];
    }
  }

  /** The driver handles every interaction with a step that announces itself. */
  lemma HandlerWellBehaved(xs: seq<Interaction>, consumer: Option<Party>, provider: Option<Party>, env: Collaborators)
    ensures WellBehaved(xs, 1, Handler(consumer, provider, env))
  {
    forall k | 0 <= k < |xs|
      ensures Announces(1 + k, InteractionStep(1 + k, consumer, provider, xs[k], env))
    {
      InteractionStepShape(1 + k, consumer, provider, xs[k], env);
    }
  }

  /** With a well-behaved handler, a run aborted at interaction `m` has made
      at most three events per interaction up to `m`, and no progress record
      numbered beyond `m`. */
  lemma RunStepsAbortBound(xs: seq<Interaction>, number: nat, handle: (nat, Interaction) -> Step)
    requires WellBehaved(xs, number, handle)
    requires RunSteps(xs, number, handle).outcome.Aborted?
    ensures var r := RunSteps(xs, number, handle);
            var m := r.outcome.number;
      && number <= m < number + |xs|
      && |r.events| <= 3 * (m - number + 1)
      && forall i :: 0 <= i < |r.events| && r.events[i].Progress? ==> r.events[i].number <= m
  {
    var r := RunSteps(xs, number, handle);
    RunStepsAbortedShape(xs, number, handle);
    var m := r.outcome.number;
    var before := xs[..m - number];
    var prefix := RunSteps(before, number, handle);
    var step := handle(m, xs[m - number]);
    assert r.events == prefix.events + step.events;
    WellBehavedPrefix(xs, m - number, number, handle);
    RunStepsProgressBound(before, number, handle);
    RunStepsPassedBlocks(before, number, handle);
    assert |prefix.events| == 3 * (m - number);
    assert Announces(m, step);
    forall i | 0 <= i < |r.events| && r.events[i].Progress?
      ensures r.events[i].number <= m
    {
      if i < |prefix.events| {
        assert r.events[i] == prefix.events[i];
      } else {
        assert r.events[i] == step.events[i - |prefix.events|];
      }
    }
  }

  /** Fail-fast, stated on the trace: when the run aborts at interaction `m`,
      at most three events were emitted per interaction up to `m`, and every
      progress record emitted is numbered at most `m`; nothing was announced,
      sent or validated for a later interaction. */
  lemma AbortBoundsTrace(xs: seq<Interaction>, consumer: Option<Party>, provider: Option<Party>, env: Collaborators)
    requires Verification(Some(xs), consumer, provider, env).outcome.Aborted?
    ensures var r := Verification(Some(xs), consumer, provider, env);
      && |r.events| <= 3 * r.outcome.number
      && forall i :: 0 <= i < |r.events| && r.events[i].Progress? ==> r.events[i].number <= r.outcome.number
  {
    HandlerWellBehaved(xs, consumer, provider, env);
    RunStepsAbortBound(xs, 1, Handler(consumer, provider, env));
  }

  /** Fail-fast, stated on the outcome: when the run aborts at interaction
      `m`, interactions 1 to m - 1 all passed and the failure is interaction
      m's own. */
  lemma AbortStopsRun(xs: seq<Interaction>, consumer: Option<Party>, provider: Option<Party>, env: Collaborators)
    requires Verification(Some(xs), consumer, provider, env).outcome.Aborted?
    ensures var r := Verification(Some(xs), consumer, provider, env);
            var m := r.outcome.number;
      && 1 <= m <= |xs|
      && Verification(Some(xs[..m - 1]), consumer, provider, env).outcome.Passed?
      && InteractionStep(m, consumer, provider, xs[m - 1], env).failure == Some(r.outcome.failure)
  {
    var h := Handler(consumer, provider, env);
    var r := RunSteps(xs, 1, h);
    RunStepsAbortedShape(xs, 1, h);
    var j := r.outcome.number - 1;
    if j == 0 {
      assert xs[..j] == [];
    }
    assert h(j + 1, xs[j]).failure == Some(r.outcome.failure);
  }

  /** One interaction whose reply satisfies the validator: one progress record
      "1) Verifying a Pact between Web and API - gets a widget.", one request
      sent, one validation, and the run passes. */
  lemma SingleInteractionScenario(env: Collaborators, reply: TransportReply)
    requires env.send(Request(HttpMethod("GET"), "/widgets/1", None, [])) == Some(reply)
    requires CapturedResponse(reply, env).Success?
    requires env.validate(ProviderResponse(200, None, Some(JObject([("name", JString("gizmo"))]))),
                          CapturedResponse(reply, env).value)
    ensures var expected := ProviderResponse(200, None, Some(JObject([("name", JString("gizmo"))])));
            var x := Interaction("gets a widget", RequestTemplate(Get, "/widgets/1", None, None), expected);
      Verification(Some([x]), Some(Party("Web")), Some(Party("API")), env)
      == Run([Progress(1, "Web", "API", "gets a widget"),
              Sent(Request(HttpMethod("GET"), "/widgets/1", None, [])),
              Validated(expected, CapturedResponse(reply, env).value)],
             Passed)
  {
    var expected := ProviderResponse(200, None, Some(JObject([("name", JString("gizmo"))])));
    var x := Interaction("gets a widget", RequestTemplate(Get, "/widgets/1", None, None), expected);
    var request := Request(HttpMethod("GET"), "/widgets/1", None, []);
    var actual := CapturedResponse(reply, env).value;
    var web, api := Some(Party("Web")), Some(Party("API"));
    assert ContentFor(x.request, env) == Success(None);
    assert CopiedHeaders([], env) == Success([]);
    assert BuiltRequest(x.request, env) == Success(request);
    assert InteractionStep(1, web, api, x, env)
           == Step([Progress(1, "Web", "API", "gets a widget"), Sent(request), Validated(expected, actual)], None);
    assert [x][..0] == [];
  }

  /** An interaction whose reply is captured but fails validation still
      makes all three events: progress, the request sent, and the validation. */
  lemma ValidationFailureStep(number: nat, consumer: Party, provider: Party, x: Interaction, env: Collaborators)
    requires BuiltRequest(x.request, env).Success?
    requires env.send(BuiltRequest(x.request, env).value).Some?
    requires CapturedResponse(env.send(BuiltRequest(x.request, env).value).value, env).Success?
    requires !env.validate(x.response,
                           CapturedResponse(env.send(BuiltRequest(x.request, env).value).value, env).value)
    ensures var request := BuiltRequest(x.request, env).value;
            var actual := CapturedResponse(env.send(request).value, env).value;
      InteractionStep(number, Some(consumer), Some(provider), x, env)
      == Step([Progress(number, consumer.name, provider.name, x.description), Sent(request), Validated(x.response, actual)],
              Some(ValidationFailed))
  {
  }

  /** Two interactions where the first reply fails validation: only the first
      is announced, sent and validated, and the run aborts at number 1. */
  lemma FirstFailureScenario(env: Collaborators, x1: Interaction, x2: Interaction)
    requires BuiltRequest(x1.request, env).Success?
    requires env.send(BuiltRequest(x1.request, env).value).Some?
    requires CapturedResponse(env.send(BuiltRequest(x1.request, env).value).value, env).Success?
    requires !env.validate(x1.response,
                           CapturedResponse(env.send(BuiltRequest(x1.request, env).value).value, env).value)
    ensures var r := Verification(Some([x1, x2]), Some(Party("Web")), Some(Party("API")), env);
      && r.outcome == Aborted(1, ValidationFailed)
      && |r.events| == 3
      && r.events[0] == Progress(1, "Web", "API", x1.description)
      && forall e :: e in r.events && e.Progress? ==> e.number == 1
  {
    var h := Handler(Some(Party("Web")), Some(Party("API")), env);
    ValidationFailureStep(1, Party("Web"), Party("API"), x1, env);
    var first := h(1, x1);
    assert [x1][..0] == [];
    assert RunSteps([x1], 1, h) == Run(first.events, Aborted(1, ValidationFailed));
    assert [x1] + [x2] == [x1, x2];
    RunStepsAppendAborted([x1], [x2], 1, h);
  }

  /** The contract: its parties, its recorded interactions, and its metadata. */
  class PactFile {
    var interactions: Option<seq<Interaction>>
    var consumer: Option<Party>
    var provider: Option<Party>
    const specVersion: string

    /** A new contract: no parties yet, no interaction list yet, and
        specification version 1.0.0 in its metadata. */
    constructor ()
      ensures interactions.None? && consumer.None? && provider.None?
      ensures specVersion == "1.0.0"
    {
      interactions := None;
      consumer := None;
      provider := None;
      specVersion := "1.0.0";
    }

    /** Creates the list if needed, then appends the interaction unless it is null. */
    method AddInteraction(x: Option<Interaction>)
      modifies this`interactions
      ensures interactions == Some(Items(old(interactions)) + (if x.Some? then [x.value] else []))
    {
      var list := Items(interactions);
      interactions := Some(list);
      if x.None? {
        assert list + [] == list;
        return;
      }
      interactions := Some(list + [x.value]);
    }

    /** Does nothing for a null or empty collection; otherwise adds each entry
        in turn, skipping nulls. */
    method AddInteractions(xs: Option<seq<Option<Interaction>>>)
      modifies this`interactions
      ensures xs.None? || |xs.value| == 0 ==> interactions == old(interactions)
      ensures xs.Some? && |xs.value| > 0 ==>
                interactions == Some(Items(old(interactions)) + Present(xs.value))
    {
      if xs.None? || |xs.value| == 0 {
        return;
      }
      var ys := xs.value;
      var i := 0;
      while i < |ys|
        invariant 0 <= i <= |ys|
        invariant i == 0 ==> interactions == old(interactions)
        invariant i > 0 ==> interactions == Some(Items(old(interactions)) + Present(ys[..i]))
      {
        ghost var before := Items(interactions);
        assert before == Items(old(interactions)) + Present(ys[..i]) by {
          if i == 0 {
            assert Present(ys[..i]) == [];
          }
        }
        AddInteraction(ys[i]);
        ghost var added := if ys[i].Some? then [ys[i].value] else [];
        assert interactions == Some(before + added);
        assert ys[..i + 1][..i] == ys[..i];
        assert Present(ys[..i + 1]) == Present(ys[..i]) + added;
        assert before + added == Items(old(interactions)) + Present(ys[..i + 1]);
        i := i + 1;
      }
      assert ys[..i] == ys;
    }

    /** One round of the driver's loop: announce the interaction, build and
        send its request, capture the reply, and validate it. */
    method HandleInteraction(number: nat, x: Interaction, env: Collaborators) returns (step: Step)
      ensures step == InteractionStep(number, consumer, provider, x, env)
    {
      if consumer.None? || provider.None? {
        return Step([], Some(MissingParty));
      }
      var events := [Progress(number, consumer.value.name, provider.value.name, x.description)];
      var built := BuildRequest(x.request, env);
      if built.Failure? {
        return Step(events, Some(built.error));
      }
      var request := built.value.Snapshot();
      events := events + [Sent(request)];
      var reply := env.send(request);
      if reply.None? {
        return Step(events, Some(TransportFailed));
      }
      var headers := ConvertHeaders(reply.value.responseHeaders, reply.value.contentHeaders);
      if headers.Failure? {
        return Step(events, Some(headers.error));
      }
      var body := None;
      if reply.value.payload != "" {
        var parsed := env.parse(reply.value.payload);
        if parsed.Malformed? {
          return Step(events, Some(MalformedBody));
        }
        body := parsed.value;
      }
      var actual := ProviderResponse(reply.value.status, headers.value, body);
      events := events + [Validated(x.response, actual)];
      if !env.validate(x.response, actual) {
        return Step(events, Some(ValidationFailed));
      }
      return Step(events, None);
    }

    /** Replays every recorded interaction against the provider through the
        given collaborators, in insertion order, stopping at the first failure. */
    method VerifyProvider(env: Collaborators) returns (run: Run)
      ensures run == Verification(interactions, consumer, provider, env)
    {
      if interactions.None? || |interactions.value| == 0 {
        return Run([], Passed);
      }
      var xs := interactions.value;
      var number := 1;
      var events: seq<Event> := [];
      var i := 0;
      while i < |xs|
        invariant 0 <= i <= |xs| && number == i + 1
        invariant RunSteps(xs[..i], 1, Handler(consumer, provider, env)) == Run(events, Passed)
      {
        var step := HandleInteraction(number, xs[i], env);
        if step.failure.Some? {
          StepFails(xs, i, Handler(consumer, provider, env));
          return Run(events + step.events, Aborted(number, step.failure.value));
        }
        StepPasses(xs, i, Handler(consumer, provider, env));
        events := events + step.events;
        number := number + 1;
        i := i + 1;
      }
      assert xs[..i] == xs;
      return Run(events, Passed);
    }
  }
}
