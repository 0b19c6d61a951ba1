/** The per-tube Runner of juggler as a state machine over values: one
    transition function per callback of the event loop, each returning the
    Runner's next state and the effects it issues on beanstalkd, on its
    JobRunners and on the timer. Each callback runs to completion on a single
    event loop, so one call of a transition function is one atomic step. */
module RunnerMachine {
  import opened RubyValues

  /** `connection.reserve(1)`: a reserve waits at most one second for a job. */
  const RESERVE_TIMEOUT: nat := 1

  /** After DEADLINE_SOON the Runner waits one second before reserving again. */
  const DEADLINE_PAUSE: nat := 1

  /** A job whose body decodes to this string is only deleted. */
  const STOP_SENTINEL: Value := Str("__STOP__")

  /** What the serializer made of a reserved job's body. */
  datatype LoadResult = LoadFailed | Loaded(params: Value)

  /** The errors with which a reserve can complete. */
  datatype ReserveError = DeadlineSoon | Disconnected | TimedOut | OtherError(name: string)

  /** The effects a Runner has on the world outside it. */
  datatype Action =
    | OpenConnection                                 // EMJack::Connection.new
    | Watch(tube: string)                            // connection.watch
    | Reserve(timeout: nat)                          // connection.reserve
    | Delete(job: JobId)                             // connection.delete
    | Release(job: JobId)                            // job.release
    | StartJob(runner: RunnerId, job: JobId, params: Value)  // JobRunner.new(...).run
    | CheckForTimeout(runner: RunnerId)              // job_runner.check_for_timeout
    | StartTimer(seconds: nat)                       // EM::Timer.new
    | NotifyDisconnected                             // juggler.disconnected
    | Disconnect                                     // connection.disconnect, from @stop_df

  /** The Runner's instance variables. `running` holds the identities of the
      running JobRunners in the order they were started; `nextRunner` is the
      identity the next JobRunner gets; `timers` counts the one-second timers
      started after DEADLINE_SOON that have not fired yet; `stopRequested` is
      "`@stop_df` is set" and `stopDone` "`@stop_df` has succeeded". */
  datatype State = State(
    tube: string,
    concurrency: nat,
    started: bool,
    on: bool,
    connected: bool,
    reserved: bool,
    running: seq<RunnerId>,
    nextRunner: RunnerId,
    timers: nat,
    stopRequested: bool,
    stopDone: bool)

  datatype Transition = Transition(next: State, effects: seq<Action>)

  /** The callbacks that drive a Runner. */
  datatype Event =
    | RunCalled
    | Connected
    | ConnectionLost
    | ReserveReturnedJob(job: JobId, load: LoadResult)
    | ReserveFailed(error: ReserveError)
    | JobRunning(runner: RunnerId)
    | JobDone(runner: RunnerId)
    | DeadlineTimerFired
    | StopCalled

  predicate Distinct(xs: seq<RunnerId>) {
    forall i, j :: 0 <= i < j < |xs| ==> xs[i] != xs[j]
  }

  /** The invariant of a Runner: at most `concurrency` jobs run, a reserve is
      outstanding only while a slot is free, JobRunners are distinct, and a
      completed stop leaves nothing running and nothing reserved. */
  ghost predicate Inv(s: State)
    ensures Inv(s) ==> 0 <= |s.running| <= s.concurrency
    ensures Inv(s) && s.reserved ==> |s.running| < s.concurrency
  {
    && |s.running| <= s.concurrency
    && (s.reserved ==> |s.running| < s.concurrency)
    && Distinct(s.running)
    && (forall r :: r in s.running ==> r < s.nextRunner)
    && (!s.started ==> !s.on && !s.connected && !s.reserved && s.running == [] && s.timers == 0 && !s.stopDone)
    && (s.started && !s.on ==> s.stopRequested)
    && (s.stopDone ==> !s.on && s.stopRequested && !s.reserved && s.running == [])
  }

  /** Which callbacks can happen in a state: `run` once, connection callbacks
      after it, a reserve completion only while a reserve is outstanding, a
      timer only after it was started. */
  predicate Enabled(s: State, e: Event)
    ensures Enabled(s, e) && !e.StopCalled? ==> (e.RunCalled? <==> !s.started)
    ensures Enabled(s, e) && (e.ReserveReturnedJob? || e.ReserveFailed?) ==> s.reserved
  {
    match e
    case RunCalled => !s.started
    case StopCalled => true
    case ReserveReturnedJob(_, _) => s.started && s.reserved
    case ReserveFailed(_) => s.started && s.reserved
    case DeadlineTimerFired => s.started && s.timers > 0
    case _ => s.started
  }

  /** Array#delete: every occurrence of `x` removed, the rest kept in order. */
  function Without(xs: seq<RunnerId>, x: RunnerId): (ys: seq<RunnerId>)
    ensures forall y :: y in ys <==> y in xs && y != x
    ensures |ys| <= |xs|
    ensures x !in xs ==> ys == xs
    ensures Distinct(xs) ==> Distinct(ys)
  {
    if xs == [] then []
    else if xs[0] == x then Without(xs[1..], x)
    else
      var rest := Without(xs[1..], x);
      assert Distinct(xs) ==> xs[0] !in xs[1..] && Distinct(xs[1..]);
      assert Distinct(xs) ==> xs[0] !in rest;
      [xs[0]] + rest
  }

  /** Removing a JobRunner that occurs once, at index k, closes the gap and
      leaves the other entries in their order. */
  lemma {:induction false} WithoutAt(xs: seq<RunnerId>, k: nat)
    requires Distinct(xs) && k < |xs|
    ensures Without(xs, xs[k]) == xs[..k] + xs[k + 1..]
  {
    var x := xs[k];
    var tail := xs[1..];
    if k == 0 {
      assert x !in tail by {
        forall j | 0 <= j < |tail|
          ensures tail[j] != x
        {
          assert tail[j] == xs[j + 1];
        }
      }
      assert xs[k + 1..] == tail;
    } else {
      assert xs[0] != x;
      assert Distinct(tail) by {
        forall i, j | 0 <= i < j < |tail|
          ensures tail[i] != tail[j]
        {
          assert tail[i] == xs[i + 1] && tail[j] == xs[j + 1];
        }
      }
      assert tail[k - 1] == x;
      WithoutAt(tail, k - 1);
      assert Without(xs, x) == [xs[0]] + Without(tail, x);
      assert xs[..k] == [xs[0]] + tail[..k - 1];
      assert xs[k + 1..] == tail[k..];
    }
  }

  /** `Runner.new`: nothing running, nothing reserved, not yet started. */
  function Initial(tube: string, concurrency: nat): (s: State)
    ensures Inv(s) && !s.started && !s.on && !s.reserved && s.running == []
    ensures s.tube == tube && s.concurrency == concurrency
  {
    State(tube, concurrency, false, false, false, false, [], 0, 0, false, false)
  }

  /** `run`: the Runner is on and opens its connection. */
  function Run(s: State): (t: Transition)
    ensures t.next.on && t.next.started && t.effects == [OpenConnection]
    ensures t.next.running == s.running && t.next.reserved == s.reserved
    ensures t.next == s.(started := true, on := true)
  {
    Transition(s.(started := true, on := true), [OpenConnection])
  }

  /** `reserve_if_necessary` reserves when on, connected, not reserving and
      below the concurrency. */
  predicate MayReserve(s: State) {
    s.on && s.connected && !s.reserved && |s.running| < s.concurrency
  }

  /** `reserve_if_necessary` succeeds `@stop_df` when off, not reserving and
      idle. A deferrable runs its callbacks only once, so the connection is
      closed only the first time. */
  predicate MayFinishStop(s: State) {
    !s.on && !s.reserved && s.running == [] && !s.stopDone
  }

  /** The two checks of `reserve_if_necessary`, one after the other. At most
      one of them fires: a reserve needs the Runner on, a stop needs it off. */
  function ReserveIfNecessary(s: State): (t: Transition)
    ensures MayReserve(s) ==> t == Transition(s.(reserved := true), [Reserve(RESERVE_TIMEOUT)])
    ensures MayFinishStop(s) ==> t == Transition(s.(stopDone := true), [Disconnect])
    ensures !MayReserve(s) && !MayFinishStop(s) ==> t == Transition(s, [])
    ensures t.next == s.(reserved := t.next.reserved, stopDone := t.next.stopDone)
  {
    var s1 := if MayReserve(s) then s.(reserved := true) else s;
    var e1 := if MayReserve(s) then [Reserve(RESERVE_TIMEOUT)] else [];
    if MayFinishStop(s1) then
      Transition(s1.(stopDone := true), e1 + [Disconnect])
    else
      Transition(s1, e1)
  }

  /** A reserve is issued exactly when it may be, a completed stop exactly
      when the Runner is off and idle; nothing else is touched. */
  lemma ReserveIfNecessaryGuards(s: State)
    ensures var t := ReserveIfNecessary(s);
            && (Reserve(RESERVE_TIMEOUT) in t.effects <==> MayReserve(s))
            && (t.next.reserved <==> s.reserved || Reserve(RESERVE_TIMEOUT) in t.effects)
            && (Disconnect in t.effects <==> MayFinishStop(s))
            && (Disconnect in t.effects ==> !t.next.on && !t.next.reserved && t.next.running == [])
            && t.next.running == s.running && t.next.on == s.on
  {
  }

  /** The connection's `on_connect`: watch the tube, then re-evaluate. */
  function OnConnect(s: State): (t: Transition)
    ensures t.next.connected && |t.effects| >= 1 && t.effects[0] == Watch(s.tube)
    ensures t.effects[1..] == ReserveIfNecessary(s.(connected := true)).effects
    ensures t.next == ReserveIfNecessary(s.(connected := true)).next
    ensures t.next.running == s.running
  {
    var r := ReserveIfNecessary(s.(connected := true));
    Transition(r.next, [Watch(s.tube)] + r.effects)
  }

  /** The connection's `on_disconnect`: the facade is told; no reserve. */
  function OnConnectionLost(s: State): (t: Transition)
    ensures !t.next.connected && t.effects == [NotifyDisconnected]
    ensures t.next == s.(connected := false)
  {
    Transition(s.(connected := false), [NotifyDisconnected])
  }

  /** True when `effects` start no JobRunner. */
  predicate StartsNoJob(effects: seq<Action>) {
    forall a :: a in effects ==> !a.StartJob?
  }

  /** What the reserve's callback makes of a job, in the order it checks. */
  datatype Reservation =
    | Undecodable
    | StopSentinel
    | ArrivedAfterStop
    | RealJob(params: Value)

  /** The checks of the reserve's callback: the body must decode, must not
      be the stop sentinel, and the Runner must still be on. */
  function Classify(on: bool, load: LoadResult): (c: Reservation)
    ensures c.Undecodable? <==> load.LoadFailed?
    ensures c.StopSentinel? <==> load.Loaded? && load.params == STOP_SENTINEL
    ensures c.ArrivedAfterStop? <==> load.Loaded? && load.params != STOP_SENTINEL && !on
    ensures c.RealJob? <==> load.Loaded? && load.params != STOP_SENTINEL && on
    ensures c.RealJob? ==> c.params == load.params
  {
    match load
    case LoadFailed => Undecodable
    case Loaded(params) =>
      if params == STOP_SENTINEL then StopSentinel
      else if !on then ArrivedAfterStop
      else RealJob(params)
  }

  /** The reserve's callback with a job: `@reserved` is cleared, then the
      checks of Classify in order. */
  function OnReserveJob(s: State, job: JobId, load: LoadResult): (t: Transition)
    ensures t.next.on == s.on && t.next.started == s.started && t.next.connected == s.connected
  {
    var s1 := s.(reserved := false);
    match Classify(s1.on, load)
    case Undecodable =>
      var r := ReserveIfNecessary(s1);
      Transition(r.next, [Delete(job)] + r.effects)
    case StopSentinel =>
      var r := ReserveIfNecessary(s1);
      Transition(r.next, [Delete(job)] + r.effects)
    case ArrivedAfterStop =>
      var r := ReserveIfNecessary(s1);
      Transition(r.next, [Release(job)] + r.effects)
    case RealJob(params) =>
      var id := s1.nextRunner;
      Transition(s1.(running := s1.running + [id], nextRunner := id + 1),
                 [StartJob(id, job, params)])
  }

  /** What the reserve's callback does with each kind of job: an undecodable
      body and the stop sentinel are deleted, a job arriving after stop is
      released, and none of them is started or added to `running`; a real
      job gets exactly one new JobRunner, appended to `running` and started,
      with no reserve issued in the same step. A reserve is outstanding
      afterwards only if the callback issued it. */
  lemma OnReserveJobOutcomes(s: State, job: JobId, load: LoadResult)
    ensures var t := OnReserveJob(s, job, load);
            var c := Classify(s.on, load);
            && ((c.Undecodable? || c.StopSentinel?) ==>
                  Delete(job) in t.effects && Release(job) !in t.effects &&
                  StartsNoJob(t.effects) && t.next.running == s.running)
            && (c.ArrivedAfterStop? ==>
                  Release(job) in t.effects && Delete(job) !in t.effects &&
                  StartsNoJob(t.effects) && t.next.running == s.running)
            && (c.RealJob? ==>
                  t.effects == [StartJob(s.nextRunner, job, c.params)] &&
                  t.next == s.(reserved := false, running := s.running + [s.nextRunner],
                               nextRunner := s.nextRunner + 1))
            && (!c.RealJob? ==>
                  t.next == ReserveIfNecessary(s.(reserved := false)).next &&
                  t.effects[1..] == ReserveIfNecessary(s.(reserved := false)).effects)
            && (t.next.reserved ==> Reserve(RESERVE_TIMEOUT) in t.effects)
  {
    var s1 := s.(reserved := false);
    if !Classify(s.on, load).RealJob? {
      ReserveIfNecessaryGuards(s1);
    }
  }

  /** `check_all_reserved_jobs`: every running JobRunner, in order, is asked
      to check its lease. */
  function CheckAll(running: seq<RunnerId>): (effects: seq<Action>)
    ensures |effects| == |running|
    ensures forall i :: 0 <= i < |running| ==> effects[i] == CheckForTimeout(running[i])
  {
    if running == [] then []
    else CheckAll(running[..|running| - 1]) + [CheckForTimeout(running[|running| - 1])]
  }

  /** The reserve's errback: `@reserved` is cleared; DEADLINE_SOON runs
      `check_all_reserved_jobs`, a disconnection does nothing more, a timeout
      and any other error re-evaluate at once. */
  function OnReserveError(s: State, error: ReserveError): (t: Transition)
    ensures t.next.on == s.on && t.next.started == s.started && t.next.connected == s.connected
  {
    var s1 := s.(reserved := false);
    match error
    case DeadlineSoon =>
      Transition(s1.(timers := s1.timers + 1), CheckAll(s1.running) + [StartTimer(DEADLINE_PAUSE)])
    case Disconnected => Transition(s1, [])
    case TimedOut => ReserveIfNecessary(s1)
    case OtherError(_) => ReserveIfNecessary(s1)
  }

  /** DEADLINE_SOON asks every running JobRunner to check its lease and
      waits for the one-second timer before reserving again; a disconnection
      issues no new reserve; a timeout and any other error re-evaluate at
      once. No error changes `running`. */
  lemma OnReserveErrorOutcomes(s: State, error: ReserveError)
    ensures var t := OnReserveError(s, error);
            && (error.DeadlineSoon? ==>
                  && Reserve(RESERVE_TIMEOUT) !in t.effects && !t.next.reserved
                  && (forall r :: r in s.running ==> CheckForTimeout(r) in t.effects)
                  && StartTimer(DEADLINE_PAUSE) in t.effects
                  && t.effects == CheckAll(s.running) + [StartTimer(DEADLINE_PAUSE)]
                  && t.next == s.(reserved := false, timers := s.timers + 1))
            && (error.Disconnected? ==> t.effects == [] && t.next == s.(reserved := false))
            && ((error.TimedOut? || error.OtherError?) ==> t == ReserveIfNecessary(s.(reserved := false)))
            && t.next.running == s.running
  {
    if error.DeadlineSoon? {
      var checks := CheckAll(s.running);
      assert Reserve(RESERVE_TIMEOUT) !in checks;
      forall r | r in s.running
        ensures CheckForTimeout(r) in checks
      {
        var k :| 0 <= k < |s.running| && s.running[k] == r;
        assert checks[k] == CheckForTimeout(r);
      }
    }
  }

  /** A JobRunner's `:running` event: re-evaluate. */
  function OnJobRunning(s: State, runner: RunnerId): (t: Transition)
    ensures t.next.running == s.running
    ensures t == ReserveIfNecessary(s)
  {
    ReserveIfNecessary(s)
  }

  /** A JobRunner's `:done` event: it leaves `running`, the others keep their
      order, then re-evaluate. */
  function OnJobDone(s: State, runner: RunnerId): (t: Transition)
    ensures runner !in t.next.running
    ensures forall r :: r in t.next.running <==> r in s.running && r != runner
    ensures forall k :: 0 <= k < |s.running| && s.running[k] == runner && Distinct(s.running) ==>
              t.next.running == s.running[..k] + s.running[k + 1..]
    ensures t == ReserveIfNecessary(s.(running := Without(s.running, runner)))
  {
    forall k | 0 <= k < |s.running| && s.running[k] == runner && Distinct(s.running)
      ensures Without(s.running, runner) == s.running[..k] + s.running[k + 1..]
    {
      WithoutAt(s.running, k);
    }
    ReserveIfNecessary(s.(running := Without(s.running, runner)))
  }

  /** The count of pending timers once one of them has fired. */
  function OneFired(timers: nat): (left: nat)
    ensures timers > 0 ==> left + 1 == timers
  {
    if timers > 0 then timers - 1 else 0
  }

  /** The one-second timer after DEADLINE_SOON fires: re-evaluate. */
  function OnDeadlineTimer(s: State): (t: Transition)
    ensures t.next.running == s.running
    ensures t == ReserveIfNecessary(s.(timers := OneFired(s.timers)))
  {
    ReserveIfNecessary(s.(timers := OneFired(s.timers)))
  }

  /** `stop`: only turns the Runner off and sets a fresh `@stop_df`; it issues
      nothing and does not itself check whether the Runner is idle. */
  function Stop(s: State): (t: Transition)
    ensures !t.next.on && t.next.stopRequested && !t.next.stopDone && t.effects == []
    ensures t.next.running == s.running && t.next.reserved == s.reserved
    ensures t.next.(on := s.on, stopRequested := s.stopRequested, stopDone := s.stopDone) == s
  {
    Transition(s.(on := false, stopRequested := true, stopDone := false), [])
  }

  /** One callback. */
  function Step(s: State, e: Event): (t: Transition)
  {
    match e
    case RunCalled => Run(s)
    case Connected => OnConnect(s)
    case ConnectionLost => OnConnectionLost(s)
    case ReserveReturnedJob(job, load) => OnReserveJob(s, job, load)
    case ReserveFailed(error) => OnReserveError(s, error)
    case JobRunning(r) => OnJobRunning(s, r)
    case JobDone(r) => OnJobDone(s, r)
    case DeadlineTimerFired => OnDeadlineTimer(s)
    case StopCalled => Stop(s)
  }

  /** A sequence of callbacks, from the first to the last. */
  function Exec(s: State, evs: seq<Event>): Transition
    decreases |evs|
  {
    if evs == [] then Transition(s, [])
    else
      var before := Exec(s, evs[..|evs| - 1]);
      var last := Step(before.next, evs[|evs| - 1]);
      Transition(last.next, before.effects + last.effects)
  }

  /** Every callback of `evs` can happen when it does. */
  predicate Admissible(s: State, evs: seq<Event>)
    decreases |evs|
  {
    evs == [] ||
    (Admissible(s, evs[..|evs| - 1]) && Enabled(Exec(s, evs[..|evs| - 1]).next, evs[|evs| - 1]))
  }

  /** The JobRunners started by `effects`. */
  function StartedIn(effects: seq<Action>): set<RunnerId> {
    set a | a in effects && a.StartJob? :: a.runner
  }

  /** The JobRunners that reported `:done` in `evs`. */
  function DoneIn(evs: seq<Event>): set<RunnerId> {
    set e | e in evs && e.JobDone? :: e.runner
  }

  /** The number of reserve completions (a job or an error) in `evs`. */
  function Completions(evs: seq<Event>): nat
    decreases |evs|
  {
    if evs == [] then 0
    else
      Completions(evs[..|evs| - 1]) +
      (if evs[|evs| - 1].ReserveReturnedJob? || evs[|evs| - 1].ReserveFailed? then 1 else 0)
  }

  /** The Runner's tube and concurrency never change, and a started Runner
      stays started. */
  lemma StepKeepsConfig(s: State, e: Event)
    ensures Step(s, e).next.tube == s.tube
    ensures Step(s, e).next.concurrency == s.concurrency
    ensures s.started ==> Step(s, e).next.started
  {
    match e
    case Connected =>
      ReserveIfNecessaryKeeps(s.(connected := true));
    case ReserveReturnedJob(_, _) =>
      ReserveIfNecessaryKeeps(s.(reserved := false));
    case ReserveFailed(_) =>
      ReserveIfNecessaryKeeps(s.(reserved := false));
    case JobRunning(_) =>
      ReserveIfNecessaryKeeps(s);
    case JobDone(r) =>
      ReserveIfNecessaryKeeps(s.(running := Without(s.running, r)));
    case DeadlineTimerFired =>
      ReserveIfNecessaryKeeps(s.(timers := OneFired(s.timers)));
    case RunCalled =>
    case ConnectionLost =>
    case StopCalled =>
  }

  /** `reserve_if_necessary` keeps the Runner's configuration and, once it
      runs, its invariant. */
  lemma ReserveIfNecessaryKeeps(s: State)
    ensures var t := ReserveIfNecessary(s);
            && t.next.tube == s.tube && t.next.concurrency == s.concurrency
            && t.next.started == s.started
            && (Inv(s) && s.started ==> Inv(t.next))
  {
  }

  /** The reserve's callback keeps the invariant: a real job is started
      only while a reserve was outstanding, so only below the concurrency,
      and under a fresh identity. */
  lemma OnReserveJobKeepsInv(s: State, job: JobId, load: LoadResult)
    requires Inv(s) && s.started && s.reserved
    ensures Inv(OnReserveJob(s, job, load).next)
  {
    var s1 := s.(reserved := false);
    assert Inv(s1);
    if Classify(s1.on, load).RealJob? {
      assert s.nextRunner !in s.running;
    } else {
      ReserveIfNecessaryKeeps(s1);
    }
  }

  /** Every callback keeps the invariant. */
  lemma StepKeepsInv(s: State, e: Event)
    requires Inv(s) && Enabled(s, e)
    ensures Inv(Step(s, e).next)
  {
    match e
    case Connected =>
      ReserveIfNecessaryKeeps(s.(connected := true));
    case JobRunning(_) =>
      ReserveIfNecessaryKeeps(s);
    case JobDone(r) =>
      var s1 := s.(running := Without(s.running, r));
      assert Inv(s1);
      ReserveIfNecessaryKeeps(s1);
    case ReserveReturnedJob(job, load) =>
      OnReserveJobKeepsInv(s, job, load);
    case ReserveFailed(_) =>
      var s1 := s.(reserved := false);
      assert Inv(s1);
      ReserveIfNecessaryKeeps(s1);
    case DeadlineTimerFired =>
      var s1 := s.(timers := OneFired(s.timers));
      assert Inv(s1);
      ReserveIfNecessaryKeeps(s1);
    case RunCalled =>
    case ConnectionLost =>
    case StopCalled =>
  }

  /** The connection is closed for `@stop_df` only when the Runner is off,
      reserves nothing and runs nothing. */
  lemma StepDisconnectsOnlyWhenIdle(s: State, e: Event)
    ensures var t := Step(s, e);
            Disconnect in t.effects ==> !t.next.on && !t.next.reserved && t.next.running == []
  {
    match e
    case Connected =>
      ReserveIfNecessaryGuards(s.(connected := true));
    case ReserveReturnedJob(job, load) =>
      ReserveIfNecessaryGuards(s.(reserved := false));
      OnReserveJobOutcomes(s, job, load);
    case ReserveFailed(error) =>
      if error.DeadlineSoon? {
        assert Disconnect !in CheckAll(s.running);
      } else {
        ReserveIfNecessaryGuards(s.(reserved := false));
      }
    case JobRunning(_) =>
      ReserveIfNecessaryGuards(s);
    case JobDone(runner) =>
      ReserveIfNecessaryGuards(s.(running := Without(s.running, runner)));
    case DeadlineTimerFired =>
      ReserveIfNecessaryGuards(s.(timers := OneFired(s.timers)));
    case RunCalled =>
    case ConnectionLost =>
    case StopCalled =>
  }

  /** Effects that start no JobRunner start no identity. */
  lemma NoneStarted(effects: seq<Action>)
    requires StartsNoJob(effects)
    ensures StartedIn(effects) == {}
  {
  }

  /** A running JobRunner stays in `running` until its own `:done`. */
  lemma StepKeepsRunning(s: State, e: Event)
    ensures forall r :: r in s.running && e != JobDone(r) ==> r in Step(s, e).next.running
  {
    match e
    case Connected =>
      ReserveIfNecessaryGuards(s.(connected := true));
    case ReserveReturnedJob(job, load) =>
      OnReserveJobOutcomes(s, job, load);
    case ReserveFailed(error) =>
      OnReserveErrorOutcomes(s, error);
    case JobRunning(_) =>
      ReserveIfNecessaryGuards(s);
    case JobDone(runner) =>
      ReserveIfNecessaryGuards(s.(running := Without(s.running, runner)));
    case DeadlineTimerFired =>
      ReserveIfNecessaryGuards(s.(timers := OneFired(s.timers)));
    case RunCalled =>
    case ConnectionLost =>
    case StopCalled =>
  }

  /** `reserve_if_necessary` starts no job and leaves `on` and `started`. */
  lemma ReserveIfNecessaryStartsNoJob(s: State)
    ensures StartsNoJob(ReserveIfNecessary(s).effects)
    ensures ReserveIfNecessary(s).next.on == s.on && ReserveIfNecessary(s).next.started == s.started
  {
  }

  /** `on_connect` starts no job. */
  lemma OnConnectStartsNoJob(s: State)
    ensures StartsNoJob(OnConnect(s).effects)
  {
    ReserveIfNecessaryStartsNoJob(s.(connected := true));
  }

  /** No reserve error starts a job. */
  lemma OnReserveErrorStartsNoJob(s: State, error: ReserveError)
    ensures StartsNoJob(OnReserveError(s, error).effects)
  {
    if error.DeadlineSoon? {
      var checks := CheckAll(s.running);
      forall a | a in checks + [StartTimer(DEADLINE_PAUSE)]
        ensures !a.StartJob?
      {
        if a in checks {
          var k :| 0 <= k < |checks| && checks[k] == a;
        }
      }
    } else {
      ReserveIfNecessaryStartsNoJob(s.(reserved := false));
    }
  }

  /** Only a real job starts a JobRunner, exactly one, with a fresh
      identity. */
  lemma StepStarts(s: State, e: Event)
    ensures var t := Step(s, e);
            || StartsNoJob(t.effects)
            || (e.ReserveReturnedJob? && Classify(s.on, e.load).RealJob? &&
                t.effects == [StartJob(s.nextRunner, e.job, e.load.params)] &&
                t.next.running == s.running + [s.nextRunner])
  {
    match e
    case Connected =>
      OnConnectStartsNoJob(s);
    case ReserveReturnedJob(job, load) =>
      OnReserveJobOutcomes(s, job, load);
    case ReserveFailed(error) =>
      OnReserveErrorStartsNoJob(s, error);
    case JobRunning(_) =>
      ReserveIfNecessaryStartsNoJob(s);
    case JobDone(runner) =>
      ReserveIfNecessaryStartsNoJob(s.(running := Without(s.running, runner)));
    case DeadlineTimerFired =>
      ReserveIfNecessaryStartsNoJob(s.(timers := OneFired(s.timers)));
    case RunCalled =>
    case ConnectionLost =>
    case StopCalled =>
  }

  /** A JobRunner that a callback starts is in `running` after it. */
  lemma StepStartsIntoRunning(s: State, e: Event)
    ensures forall r :: r in StartedIn(Step(s, e).effects) ==> r in Step(s, e).next.running
  {
    var t := Step(s, e);
    StepStarts(s, e);
    if StartsNoJob(t.effects) {
      NoneStarted(t.effects);
    } else {
      assert StartedIn(t.effects) == {s.nextRunner};
    }
  }

  /** The reserves `t` issues, plus one if a reserve was outstanding in `s`,
      equal the `completed` reserves plus one if a reserve is outstanding
      after `t`. */
  ghost predicate ReserveBalance(s: State, t: Transition, completed: nat) {
    multiset(t.effects)[Reserve(RESERVE_TIMEOUT)] + (if s.reserved then 1 else 0) ==
    completed + (if t.next.reserved then 1 else 0)
  }

  /** `reserve_if_necessary` issues a reserve exactly when it sets `reserved`. */
  lemma ReserveIfNecessaryReserves(s: State)
    ensures ReserveBalance(s, ReserveIfNecessary(s), 0)
  {
  }

  /** A leading effect other than a reserve adds no reserve. */
  lemma PrependNoReserve(a: Action, effects: seq<Action>)
    requires a != Reserve(RESERVE_TIMEOUT)
    ensures multiset([a] + effects)[Reserve(RESERVE_TIMEOUT)] == multiset(effects)[Reserve(RESERVE_TIMEOUT)]
  {
    assert multiset([a] + effects) == multiset([a]) + multiset(effects);
  }

  /** `on_connect` completes no reserve and issues one only if it sets `reserved`. */
  lemma OnConnectReserves(s: State)
    ensures ReserveBalance(s, OnConnect(s), 0)
  {
    var s1 := s.(connected := true);
    ReserveIfNecessaryReserves(s1);
    PrependNoReserve(Watch(s.tube), ReserveIfNecessary(s1).effects);
  }

  /** The reserve's callback completes the outstanding reserve. */
  lemma OnReserveJobReserves(s: State, job: JobId, load: LoadResult)
    requires s.reserved
    ensures ReserveBalance(s, OnReserveJob(s, job, load), 1)
  {
    var s1 := s.(reserved := false);
    match Classify(s1.on, load) {
      case Undecodable =>
        ReserveIfNecessaryReserves(s1);
        PrependNoReserve(Delete(job), ReserveIfNecessary(s1).effects);
      case StopSentinel =>
        ReserveIfNecessaryReserves(s1);
        PrependNoReserve(Delete(job), ReserveIfNecessary(s1).effects);
      case ArrivedAfterStop =>
        ReserveIfNecessaryReserves(s1);
        PrependNoReserve(Release(job), ReserveIfNecessary(s1).effects);
      case RealJob(_) =>
    }
  }

  /** The reserve's errback completes the outstanding reserve. */
  lemma OnReserveErrorReserves(s: State, error: ReserveError)
    requires s.reserved
    ensures ReserveBalance(s, OnReserveError(s, error), 1)
  {
    var s1 := s.(reserved := false);
    if error.DeadlineSoon? {
      assert Reserve(RESERVE_TIMEOUT) !in CheckAll(s1.running) + [StartTimer(DEADLINE_PAUSE)];
    } else if !error.Disconnected? {
      ReserveIfNecessaryReserves(s1);
    }
  }

  /** One callback issues a reserve only if it leaves one outstanding, and a
      reserve that was outstanding stays so unless this callback completes it. */
  lemma StepReserves(s: State, e: Event)
    requires Enabled(s, e)
    ensures ReserveBalance(s, Step(s, e), if e.ReserveReturnedJob? || e.ReserveFailed? then 1 else 0)
  {
    match e
    case RunCalled =>
    case Connected =>
      OnConnectReserves(s);
    case ConnectionLost =>
    case ReserveReturnedJob(job, load) =>
      OnReserveJobReserves(s, job, load);
    case ReserveFailed(error) =>
      OnReserveErrorReserves(s, error);
    case JobRunning(_) =>
      ReserveIfNecessaryReserves(s);
    case JobDone(runner) =>
      ReserveIfNecessaryReserves(s.(running := Without(s.running, runner)));
    case DeadlineTimerFired =>
      ReserveIfNecessaryReserves(s.(timers := OneFired(s.timers)));
    case StopCalled =>
  }

  /** After a started Runner is stopped it stays off and starts no job. */
  lemma StepAfterStop(s: State, e: Event)
    requires s.started && !s.on && Enabled(s, e)
    ensures var t := Step(s, e);
            t.next.started && !t.next.on && StartsNoJob(t.effects)
  {
    match e
    case Connected =>
      ReserveIfNecessaryStartsNoJob(s.(connected := true));
      OnConnectStartsNoJob(s);
    case ReserveReturnedJob(job, load) =>
      OnReserveJobOutcomes(s, job, load);
    case ReserveFailed(error) =>
      OnReserveErrorStartsNoJob(s, error);
    case JobRunning(_) =>
      ReserveIfNecessaryStartsNoJob(s);
    case JobDone(runner) =>
      ReserveIfNecessaryStartsNoJob(s.(running := Without(s.running, runner)));
    case DeadlineTimerFired =>
      ReserveIfNecessaryStartsNoJob(s.(timers := OneFired(s.timers)));
    case RunCalled =>
    case ConnectionLost =>
    case StopCalled =>
  }

  /** The invariant holds after any admissible sequence of callbacks; in
      particular at most `concurrency` jobs ever run. */
  lemma {:induction false} ExecKeepsInv(s: State, evs: seq<Event>)
    requires Inv(s) && Admissible(s, evs)
    ensures Inv(Exec(s, evs).next)
    ensures |Exec(s, evs).next.running| <= Exec(s, evs).next.concurrency == s.concurrency
    decreases |evs|
  {
    if evs != [] {
      var pre := evs[..|evs| - 1];
      ExecKeepsInv(s, pre);
      StepKeepsInv(Exec(s, pre).next, evs[|evs| - 1]);
      StepKeepsConfig(Exec(s, pre).next, evs[|evs| - 1]);
    }
  }

  /** At most one reserve is outstanding at any time: every reserve issued
      but one has completed, and that one exactly while `reserved` is set. */
  lemma {:induction false} OneReserveOutstanding(s: State, evs: seq<Event>)
    requires Admissible(s, evs)
    ensures var t := Exec(s, evs);
            multiset(t.effects)[Reserve(RESERVE_TIMEOUT)] + (if s.reserved then 1 else 0) ==
            Completions(evs) + (if t.next.reserved then 1 else 0)
    decreases |evs|
  {
    if evs != [] {
      var pre := evs[..|evs| - 1];
      OneReserveOutstanding(s, pre);
      StepReserves(Exec(s, pre).next, evs[|evs| - 1]);
    }
  }

  /** A JobRunner that was running or was started, and has not reported
      `:done`, is still in `running`. */
  lemma {:induction false} UnfinishedJobsAreRunning(s: State, evs: seq<Event>)
    ensures var t := Exec(s, evs);
            forall r :: (r in s.running || r in StartedIn(t.effects)) && r !in DoneIn(evs) ==> r in t.next.running
    decreases |evs|
  {
    if evs != [] {
      var pre := evs[..|evs| - 1];
      var e := evs[|evs| - 1];
      UnfinishedJobsAreRunning(s, pre);
      var before := Exec(s, pre);
      var last := Step(before.next, e);
      StepKeepsRunning(before.next, e);
      StepStartsIntoRunning(before.next, e);
      assert evs == pre + [e];
      assert DoneIn(evs) == DoneIn(pre) + DoneIn([e]);
      assert StartedIn(before.effects + last.effects) == StartedIn(before.effects) + StartedIn(last.effects);
    }
  }

  /** Stop completion never outruns a job: when a callback closes the
      connection for `@stop_df`, the Runner is off, nothing is reserved and
      every JobRunner started so far has reported `:done`. */
  lemma StopWaitsForStartedJobs(s: State, evs: seq<Event>, e: Event)
    requires s.running == []
    ensures var last := Step(Exec(s, evs).next, e);
            Disconnect in last.effects ==>
              !last.next.on && !last.next.reserved &&
              StartedIn(Exec(s, evs + [e]).effects) <= DoneIn(evs + [e])
  {
    assert (evs + [e])[..|evs|] == evs;
    StepDisconnectsOnlyWhenIdle(Exec(s, evs).next, e);
    UnfinishedJobsAreRunning(s, evs + [e]);
  }

  /** Once a started Runner is stopped, no job is ever started again: a job
      that arrives afterwards is released, as the test receiving a job after
      stop expects. */
  lemma {:induction false} NoJobStartsAfterStop(s: State, evs: seq<Event>)
    requires s.started && !s.on && Admissible(s, evs)
    ensures StartsNoJob(Exec(s, evs).effects)
    ensures Exec(s, evs).next.started && !Exec(s, evs).next.on
    decreases |evs|
  {
    if evs != [] {
      var pre := evs[..|evs| - 1];
      NoJobStartsAfterStop(s, pre);
      StepAfterStop(Exec(s, pre).next, evs[|evs| - 1]);
    }
  }

  /** One more callback at the end of a sequence. */
  lemma ExecSnoc(s: State, evs: seq<Event>, e: Event)
    ensures Exec(s, evs + [e]) ==
            Transition(Step(Exec(s, evs).next, e).next, Exec(s, evs).effects + Step(Exec(s, evs).next, e).effects)
    ensures Admissible(s, evs + [e]) <==> Admissible(s, evs) && Enabled(Exec(s, evs).next, e)
  {
    assert (evs + [e])[..|evs|] == evs;
  }

  /** The callbacks of the first half of the integration test in which a
      job arrives after stop: run, connect, receive a job, and reserve again
      once it runs. */
  lemma StartOfJobAfterStopSteps(tube: string)
    ensures var s0 := Initial(tube, 2);
            var s1 := s0.(started := true, on := true);
            var s2 := s1.(connected := true, reserved := true);
            var s3 := s2.(reserved := false, running := [0], nextRunner := 1);
            && Step(s0, RunCalled) == Transition(s1, [OpenConnection])
            && Step(s1, Connected) == Transition(s2, [Watch(tube), Reserve(RESERVE_TIMEOUT)])
            && Step(s2, ReserveReturnedJob(1, Loaded(Obj(1)))) == Transition(s3, [StartJob(0, 1, Obj(1))])
            && Step(s3, JobRunning(0)) == Transition(s3.(reserved := true), [Reserve(RESERVE_TIMEOUT)])
  {
  }

  /** One more possible callback after a possible sequence whose outcome
      is known. */
  lemma ExecStep(s: State, evs: seq<Event>, e: Event, before: Transition, last: Transition)
    requires Admissible(s, evs) && Exec(s, evs) == before
    requires Enabled(before.next, e) && Step(before.next, e) == last
    ensures Admissible(s, evs + [e])
    ensures Exec(s, evs + [e]) == Transition(last.next, before.effects + last.effects)
  {
    ExecSnoc(s, evs, e);
  }

  /** The first half of the integration test in which a job arrives after
      stop, as a sequence of callbacks from the initial state. */
  lemma StartOfJobAfterStopTest(tube: string)
    ensures var evs := [RunCalled, Connected, ReserveReturnedJob(1, Loaded(Obj(1))), JobRunning(0)];
            && Admissible(Initial(tube, 2), evs)
            && Exec(Initial(tube, 2), evs) ==
               Transition(Initial(tube, 2).(started := true, on := true, connected := true, reserved := true,
                                            running := [0], nextRunner := 1),
                          [OpenConnection, Watch(tube), Reserve(RESERVE_TIMEOUT), StartJob(0, 1, Obj(1)),
                           Reserve(RESERVE_TIMEOUT)])
  {
    var s0 := Initial(tube, 2);
    var e1, e2, e3, e4 := RunCalled, Connected, ReserveReturnedJob(1, Loaded(Obj(1))), JobRunning(0);
    StartOfJobAfterStopSteps(tube);
    ExecSnoc(s0, [], e1);
    ExecSnoc(s0, [e1], e2);
    assert [e1] + [e2] == [e1, e2];
    ExecSnoc(s0, [e1, e2], e3);
    assert [e1, e2] + [e3] == [e1, e2, e3];
    ExecSnoc(s0, [e1, e2, e3], e4);
    assert [e1, e2, e3] + [e4] == [e1, e2, e3, e4];
  }

  /** The callbacks of the second half of the integration test in which a
      job arrives after stop: stop, then a job arrives and is released, then
      the running job finishes and the connection is closed. */
  lemma EndOfJobAfterStopTest(tube: string)
    ensures var s4 := Initial(tube, 2).(started := true, on := true, connected := true, reserved := true,
                                        running := [0], nextRunner := 1);
            var s5 := s4.(on := false, stopRequested := true);
            var s6 := s5.(reserved := false);
            && Step(s4, StopCalled) == Transition(s5, [])
            && Step(s5, ReserveReturnedJob(2, Loaded(Obj(2)))) == Transition(s6, [Release(2)])
            && Step(s6, JobDone(0)) == Transition(s6.(running := [], stopDone := true), [Disconnect])
  {
    var s4 := Initial(tube, 2).(started := true, on := true, connected := true, reserved := true,
                                running := [0], nextRunner := 1);
    var s5 := s4.(on := false, stopRequested := true);
    assert Classify(s5.on, Loaded(Obj(2))) == ArrivedAfterStop;
    assert Without([0], 0) == [];
  }

  /** The state of the integration test in which a job arrives after stop
      once the first job runs and a second reserve is outstanding. */
  function FirstJobRunning(tube: string): State {
    Initial(tube, 2).(started := true, on := true, connected := true, reserved := true,
                      running := [0], nextRunner := 1)
  }

  /** The effects of the first half of that test. */
  function FirstJobEffects(tube: string): seq<Action> {
    [OpenConnection, Watch(tube), Reserve(RESERVE_TIMEOUT), StartJob(0, 1, Obj(1)), Reserve(RESERVE_TIMEOUT)]
  }

  /** That test up to the arrival of the second job: after `stop` it is
      released and nothing else is issued. */
  lemma SecondJobReleasedTest(tube: string)
    ensures var evs := [RunCalled, Connected, ReserveReturnedJob(1, Loaded(Obj(1))), JobRunning(0),
                        StopCalled, ReserveReturnedJob(2, Loaded(Obj(2)))];
            && Admissible(Initial(tube, 2), evs)
            && Exec(Initial(tube, 2), evs) ==
               Transition(FirstJobRunning(tube).(on := false, stopRequested := true, reserved := false),
                          FirstJobEffects(tube) + [Release(2)])
  {
    var s0 := Initial(tube, 2);
    var e1, e2, e3, e4 := RunCalled, Connected, ReserveReturnedJob(1, Loaded(Obj(1))), JobRunning(0);
    var e5, e6 := StopCalled, ReserveReturnedJob(2, Loaded(Obj(2)));
    var s4 := FirstJobRunning(tube);
    var s5 := s4.(on := false, stopRequested := true);
    var p4 := [e1, e2, e3, e4];
    var p5 := p4 + [e5];
    StartOfJobAfterStopTest(tube);
    EndOfJobAfterStopTest(tube);
    ExecStep(s0, p4, e5, Transition(s4, FirstJobEffects(tube)), Transition(s5, []));
    ExecStep(s0, p5, e6, Transition(s5, FirstJobEffects(tube) + []),
             Transition(s5.(reserved := false), [Release(2)]));
    assert p5 + [e6] == [e1, e2, e3, e4, e5, e6];
  }

  /** The integration test in which a job arrives after stop, with a
      concurrency of 2: the first job is started and a second reserve
      issued; after stop the second job is released, not started, and the
      connection is closed only once the first job is done. */
  lemma JobArrivingAfterStopIsReleased(tube: string)
    ensures var evs := [RunCalled, Connected, ReserveReturnedJob(1, Loaded(Obj(1))), JobRunning(0),
                        StopCalled, ReserveReturnedJob(2, Loaded(Obj(2))), JobDone(0)];
            && Admissible(Initial(tube, 2), evs)
            && Exec(Initial(tube, 2), evs).effects ==
               [OpenConnection, Watch(tube), Reserve(RESERVE_TIMEOUT), StartJob(0, 1, Obj(1)),
                Reserve(RESERVE_TIMEOUT), Release(2), Disconnect]
  {
    var s6 := FirstJobRunning(tube).(on := false, stopRequested := true, reserved := false);
    var p6 := [RunCalled, Connected, ReserveReturnedJob(1, Loaded(Obj(1))), JobRunning(0),
               StopCalled, ReserveReturnedJob(2, Loaded(Obj(2)))];
    SecondJobReleasedTest(tube);
    EndOfJobAfterStopTest(tube);
    ExecStep(Initial(tube, 2), p6, JobDone(0), Transition(s6, FirstJobEffects(tube) + [Release(2)]),
             Transition(s6.(running := [], stopDone := true), [Disconnect]));
    assert p6 + [JobDone(0)] == [RunCalled, Connected, ReserveReturnedJob(1, Loaded(Obj(1))), JobRunning(0),
                                 StopCalled, ReserveReturnedJob(2, Loaded(Obj(2))), JobDone(0)];
  }
}
