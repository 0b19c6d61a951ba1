/** The pure job-outcome policy of the Juggler facade: the default backoff
    function (release with a growing delay, bury after a day) and the way
    `juggle_sync` turns the outcome of a synchronous strategy into a success
    or a failure of the job's deferrable. */
module JugglerPolicy {
  import opened RubyValues

  /** Delays above one day (in seconds) bury the job instead of releasing it. */
  const ONE_DAY: nat := 60 * 60 * 24

  /** What the default backoff function does with a failed job. */
  datatype BackoffDecision = Release(delay: nat) | Bury

  /** The next release delay, `([1, prior * 1.3].max).ceil`, over whole
      seconds: the least integer that is at least 1 and at least 1.3 * prior. */
  function BackoffDelay(prior: nat): (delay: nat)
    ensures delay >= 1 && 10 * delay >= 13 * prior
    ensures delay == 1 || 10 * (delay - 1) < 13 * prior
    ensures delay > prior
  {
    var scaled := (13 * prior + 9) / 10;
    if scaled < 1 then 1 else scaled
  }

  /** The default backoff function: one decision per failure, bury when the
      delay would exceed a day, release with that delay otherwise. */
  function DefaultBackoff(prior: nat): (decision: BackoffDecision)
    ensures decision.Bury? <==> BackoffDelay(prior) > ONE_DAY
    ensures decision.Release? ==>
              decision.delay == BackoffDelay(prior) && prior < decision.delay <= ONE_DAY
  {
    var delay := BackoffDelay(prior);
    if delay > ONE_DAY then Bury else Release(delay)
  }

  /** The delays with which a job that fails every time is released, starting
      from the release delay `prior` in its stats, up to the failure that
      buries it. */
  function ReleasedDelays(prior: nat): (delays: seq<nat>)
    ensures forall i :: 0 <= i < |delays| ==> prior < delays[i] <= ONE_DAY
    decreases if prior <= ONE_DAY then ONE_DAY + 1 - prior else 0
  {
    match DefaultBackoff(prior)
    case Bury => []
    case Release(delay) => [delay] + ReleasedDelays(delay)
  }

  /** `delays` are the releases of a job that fails at every attempt, from
      the release delay `prior` on, and the failure after the last one buries
      it. */
  predicate IsReleaseChain(prior: nat, delays: seq<nat>)
    decreases |delays|
  {
    if delays == [] then DefaultBackoff(prior).Bury?
    else DefaultBackoff(prior) == Release(delays[0]) && IsReleaseChain(delays[0], delays[1..])
  }

  /** The default backoff releases a failing job with exactly these delays
      and then buries it. */
  lemma {:induction false} ReleasedDelaysIsReleaseChain(prior: nat)
    ensures IsReleaseChain(prior, ReleasedDelays(prior))
    decreases if prior <= ONE_DAY then ONE_DAY + 1 - prior else 0
  {
    match DefaultBackoff(prior)
    case Bury =>
    case Release(delay) =>
      ReleasedDelaysIsReleaseChain(delay);
      assert ReleasedDelays(prior) == [delay] + ReleasedDelays(delay);
  }

  /** Any chain of releases ending in burial is the one the default backoff
      produces. */
  lemma {:induction false} ReleaseChainIsReleasedDelays(prior: nat, delays: seq<nat>)
    requires IsReleaseChain(prior, delays)
    ensures ReleasedDelays(prior) == delays
    decreases |delays|
  {
    if delays != [] {
      ReleaseChainIsReleasedDelays(delays[0], delays[1..]);
    }
  }

  /** The release delays of a failing job strictly increase. */
  lemma {:induction false} ReleasedDelaysIncrease(prior: nat)
    ensures forall i, j :: 0 <= i < j < |ReleasedDelays(prior)| ==>
              ReleasedDelays(prior)[i] < ReleasedDelays(prior)[j]
    decreases if prior <= ONE_DAY then ONE_DAY + 1 - prior else 0
  {
    var decision := DefaultBackoff(prior);
    if decision.Release? {
      var delay := decision.delay;
      ReleasedDelaysIncrease(delay);
      var rest := ReleasedDelays(delay);
      var delays := ReleasedDelays(prior);
      assert delays == [delay] + rest;
      forall i, j | 0 <= i < j < |delays|
        ensures delays[i] < delays[j]
      {
        assert delays[j] == rest[j - 1];
        if i > 0 {
          assert delays[i] == rest[i - 1];
        } else {
          assert delays[i] == delay < rest[j - 1];
        }
      }
    }
  }

  /** The start of the chain written next to the default backoff function,
      which begins at 2 seconds: 3, 4, 6, 8, 11, 15 and 20. The first two
      steps, 0 to 1 and 1 to 2, are not in that comment; they show that a
      job with no prior delay reaches 2 seconds on its second failure. */
  lemma DocumentedBackoffChainStart()
    ensures DefaultBackoff(0) == Release(1)
    ensures DefaultBackoff(1) == Release(2)
    ensures DefaultBackoff(2) == Release(3)
    ensures DefaultBackoff(3) == Release(4)
    ensures DefaultBackoff(4) == Release(6)
    ensures DefaultBackoff(6) == Release(8)
    ensures DefaultBackoff(8) == Release(11)
    ensures DefaultBackoff(11) == Release(15)
    ensures DefaultBackoff(15) == Release(20)
  {
  }

  /** The chain continues from 20 seconds to 1087 seconds. */
  lemma BackoffChainMiddle()
    ensures DefaultBackoff(20) == Release(26)
    ensures DefaultBackoff(26) == Release(34)
    ensures DefaultBackoff(34) == Release(45)
    ensures DefaultBackoff(45) == Release(59)
    ensures DefaultBackoff(59) == Release(77)
    ensures DefaultBackoff(77) == Release(101)
    ensures DefaultBackoff(101) == Release(132)
    ensures DefaultBackoff(132) == Release(172)
    ensures DefaultBackoff(172) == Release(224)
    ensures DefaultBackoff(224) == Release(292)
    ensures DefaultBackoff(292) == Release(380)
    ensures DefaultBackoff(380) == Release(494)
    ensures DefaultBackoff(494) == Release(643)
    ensures DefaultBackoff(643) == Release(836)
    ensures DefaultBackoff(836) == Release(1087)
  {
  }

  /** The end of the documented chain: 72465 seconds is the last release,
      and the failure after it buries the job. */
  lemma DocumentedBackoffChainEnd()
    ensures DefaultBackoff(1087) == Release(1414)
    ensures DefaultBackoff(1414) == Release(1839)
    ensures DefaultBackoff(1839) == Release(2391)
    ensures DefaultBackoff(2391) == Release(3109)
    ensures DefaultBackoff(3109) == Release(4042)
    ensures DefaultBackoff(4042) == Release(5255)
    ensures DefaultBackoff(5255) == Release(6832)
    ensures DefaultBackoff(6832) == Release(8882)
    ensures DefaultBackoff(8882) == Release(11547)
    ensures DefaultBackoff(11547) == Release(15012)
    ensures DefaultBackoff(15012) == Release(19516)
    ensures DefaultBackoff(19516) == Release(25371)
    ensures DefaultBackoff(25371) == Release(32983)
    ensures DefaultBackoff(32983) == Release(42878)
    ensures DefaultBackoff(42878) == Release(55742)
    ensures DefaultBackoff(72465) == Bury
    ensures ReleasedDelays(55742) == [72465]
  {
  }

  /** How the strategy block of `juggle_sync` ended. */
  datatype StrategyOutcome =
    | Returned(result: Value)
    | Threw(tag: Value, payload: Value)
    | Raised(error: RubyException)

  /** The argument given to the deferrable's `fail`. */
  datatype FailReason = Thrown(payload: Value) | Exception(error: RubyException)

  /** How the strategy's outcome resolves the job's deferrable: `succeed`
      or `fail` was called first, or an exception escaped the `rescue` and
      neither was. */
  datatype Resolution = Succeeded | Failed(reason: FailReason) | Unresolved(escaped: RubyException)

  /** `catch(:fail)` only catches this tag. */
  const FAIL_TAG: Value := Sym("fail")

  /** Ruby raises this StandardError when a `throw` finds no matching
      `catch` (UncaughtThrowError from Ruby 2.2; older versions raise an
      ArgumentError or NameError, also StandardErrors, with the same effect). */
  const UNCAUGHT_THROW: RubyException := RubyException("UncaughtThrowError", true)

  /** The defer wrapper of `juggle_sync`: `catch(:fail)` around the strategy,
      `rescue => e` around both. */
  function JuggleSyncResolution(outcome: StrategyOutcome): (r: Resolution)
    ensures r.Succeeded? <==> outcome.Returned?
    ensures forall x :: r == Failed(Thrown(x)) <==> outcome == Threw(FAIL_TAG, x)
    ensures outcome.Raised? && outcome.error.standardError ==> r == Failed(Exception(outcome.error))
    ensures outcome.Threw? && outcome.tag != FAIL_TAG ==> r == Failed(Exception(UNCAUGHT_THROW))
    ensures r.Unresolved? <==> outcome.Raised? && !outcome.error.standardError
    ensures r.Unresolved? ==> outcome.Raised? && r.escaped == outcome.error
  {
    match outcome
    case Returned(_) => Succeeded
    case Threw(tag, payload) =>
      if tag == FAIL_TAG then Failed(Thrown(payload)) else Failed(Exception(UNCAUGHT_THROW))
    case Raised(e) =>
      if e.standardError then Failed(Exception(e)) else Unresolved(e)
  }
  /** A call made on the job's deferrable. */
  datatype DeferrableCall = Succeed | Fail(reason: FailReason)

  /** The first call the defer wrapper makes, if any. */
  function FirstCall(r: Resolution): (calls: seq<DeferrableCall>)
    ensures |calls| <= 1
    ensures calls == [] <==> r.Unresolved?
    ensures r.Succeeded? ==> calls == [Succeed]
    ensures r.Failed? ==> calls == [Fail(r.reason)]
  {
    match r
    case Succeeded => [Succeed]
    case Failed(reason) => [Fail(reason)]
    case Unresolved(_) => []
  }

  /** Every call the defer wrapper makes on the deferrable, in order, when a
      callback that `succeed` or `fail` runs may raise `callbackError`. The
      `rescue` also covers the `succeed` and `fail(caught_response)` inside
      the `begin`, so a StandardError raised by their callbacks is followed
      by `fail(e)`; a `fail(e)` made by the `rescue` itself is not covered,
      and what its callbacks raise escapes. */
  function JuggleSyncCalls(outcome: StrategyOutcome, callbackError: Option<RubyException>): (calls: seq<DeferrableCall>)
    ensures callbackError.None? ==> calls == FirstCall(JuggleSyncResolution(outcome))
    ensures calls == [] <==> JuggleSyncResolution(outcome).Unresolved?
    ensures 1 <= |calls| ==> calls[..1] == FirstCall(JuggleSyncResolution(outcome))
    ensures |calls| <= 2
    ensures |calls| == 2 <==>
              (outcome.Returned? || (outcome.Threw? && outcome.tag == FAIL_TAG)) &&
              callbackError.Some? && callbackError.value.standardError
    ensures |calls| == 2 ==> calls[1] == Fail(Exception(callbackError.value))
  {
    var first := FirstCall(JuggleSyncResolution(outcome));
    var insideBegin := outcome.Returned? || (outcome.Threw? && outcome.tag == FAIL_TAG);
    match callbackError
    case Some(e) =>
      if insideBegin && e.standardError then first + [Fail(Exception(e))] else first
    case None => first
  }
}
