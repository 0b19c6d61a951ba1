/** The Runner object of lib/juggler/runner.rb: its instance variables are
    fields, and each callback that the event loop delivers to it is a method
    that updates them in place. Every effect on beanstalkd, on a JobRunner or
    on the timer is appended to the ghost `log`. Each method is proved to do
    exactly what the matching transition function of RunnerMachine does, so
    the invariant and the trace lemmas proved there hold of the object. */
module Runners {
  import opened RubyValues
  import Machine = RunnerMachine

  class Runner {
    /** `@queue`: the tube this Runner watches. */
    const tube: string
    /** `@concurrency`: the most jobs it runs at once. */
    const concurrency: nat
    /** `run` has been called. */
    var started: bool
    /** `@on`: the Runner accepts new jobs. */
    var on: bool
    /** `@connection.connected?`. */
    var connected: bool
    /** `@reserved`: a reserve is outstanding. */
    var reserved: bool
    /** `@running`: the running JobRunners, in the order they started. */
    var running: seq<RunnerId>
    /** The identity the next JobRunner gets. */
    var nextRunner: RunnerId
    /** One-second timers started after DEADLINE_SOON that have not fired. */
    var timers: nat
    /** `@stop_df` is set. */
    var stopRequested: bool
    /** `@stop_df` has succeeded (a deferrable runs its callbacks once). */
    var stopDone: bool
    /** Every effect issued so far, oldest first. */
    ghost var log: seq<Machine.Action>

    /** The fields as a RunnerMachine state. */
    function Snapshot(): Machine.State
      reads this
    {
      Machine.State(tube, concurrency, started, on, connected, reserved,
                    running, nextRunner, timers, stopRequested, stopDone)
    }

    ghost predicate Valid()
      reads this
    {
      Machine.Inv(Snapshot())
    }

    /** `Runner.new`: nothing running and nothing reserved. */
    constructor (tube: string, concurrency: nat)
      ensures Snapshot() == Machine.Initial(tube, concurrency)
      ensures log == [] && Valid()
    {
      this.tube := tube;
      this.concurrency := concurrency;
      started, on, connected, reserved := false, false, false, false;
      running, nextRunner, timers := [], 0, 0;
      stopRequested, stopDone := false, false;
      log := [];
    }

    /** `run`: turn on and open the connection. */
    method Run()
      requires Valid() && !started
      modifies this
      ensures Snapshot() == Machine.Run(old(Snapshot())).next
      ensures log == old(log) + Machine.Run(old(Snapshot())).effects
      ensures Valid()
    {
      started := true;
      on := true;
      log := log + [Machine.OpenConnection];
    }

    /** `reserve`: mark a reserve outstanding and issue it. */
    method Reserve()
      modifies this
      ensures Snapshot() == old(Snapshot()).(reserved := true)
      ensures log == old(log) + [Machine.Reserve(Machine.RESERVE_TIMEOUT)]
    {
      reserved := true;
      log := log + [Machine.Reserve(Machine.RESERVE_TIMEOUT)];
    }

    /** `reserve_if_necessary`. */
    method ReserveIfNecessary()
      modifies this
      ensures Snapshot() == Machine.ReserveIfNecessary(old(Snapshot())).next
      ensures log == old(log) + Machine.ReserveIfNecessary(old(Snapshot())).effects
    {
      if on && connected && !reserved && |running| < concurrency {
        Reserve();
      }
      if !on && !reserved && running == [] && !stopDone {
        stopDone := true;
        log := log + [Machine.Disconnect];
      }
    }

    /** The connection's `on_connect`. */
    method OnConnect()
      requires Valid() && started
      modifies this
      ensures Snapshot() == Machine.OnConnect(old(Snapshot())).next
      ensures log == old(log) + Machine.OnConnect(old(Snapshot())).effects
      ensures Valid()
    {
      connected := true;
      ghost var s1 := Snapshot();
      assert Machine.Inv(s1);
      IssueThenReserve(Machine.Watch(tube));
      Machine.ReserveIfNecessaryKeeps(s1);
    }

    /** The connection's `on_disconnect`. */
    method OnConnectionLost()
      requires Valid() && started
      modifies this
      ensures Snapshot() == Machine.OnConnectionLost(old(Snapshot())).next
      ensures log == old(log) + Machine.OnConnectionLost(old(Snapshot())).effects
      ensures Valid()
    {
      connected := false;
      log := log + [Machine.NotifyDisconnected];
    }

    /** Issue one command on the connection (`watch`, `delete` or
        `release`), then `reserve_if_necessary`. */
    method IssueThenReserve(a: Machine.Action)
      modifies this
      ensures Snapshot() == Machine.ReserveIfNecessary(old(Snapshot())).next
      ensures log == old(log) + ([a] + Machine.ReserveIfNecessary(old(Snapshot())).effects)
    {
      log := log + [a];
      ReserveIfNecessary();
      assert log == old(log) + [a] + Machine.ReserveIfNecessary(old(Snapshot())).effects;
    }

    /** Create a JobRunner for a leased job under a fresh identity, add it
        to `@running` and start it. */
    method StartJobRunner(job: JobId, params: Value)
      modifies this
      ensures Snapshot() == old(Snapshot()).(running := old(running) + [old(nextRunner)],
                                            nextRunner := old(nextRunner) + 1)
      ensures log == old(log) + [Machine.StartJob(old(nextRunner), job, params)]
    {
      var id := nextRunner;
      running := running + [id];
      nextRunner := id + 1;
      log := log + [Machine.StartJob(id, job, params)];
    }

    /** The reserve's callback, with the job and what the serializer made of
        its body: clear `@reserved`, then delete an undecodable body or the
        stop sentinel, release a job that arrives after stop, and otherwise
        start a JobRunner for it. */
    method OnReserveJob(job: JobId, load: Machine.LoadResult)
      requires Valid() && started && reserved
      modifies this
      ensures Snapshot() == Machine.OnReserveJob(old(Snapshot()), job, load).next
      ensures log == old(log) + Machine.OnReserveJob(old(Snapshot()), job, load).effects
      ensures Valid()
    {
      ghost var s := Snapshot();
      reserved := false;
      match load {
        case LoadFailed =>
          IssueThenReserve(Machine.Delete(job));
        case Loaded(params) =>
          if params == Machine.STOP_SENTINEL {
            IssueThenReserve(Machine.Delete(job));
          } else if !on {
            IssueThenReserve(Machine.Release(job));
          } else {
            StartJobRunner(job, params);
          }
      }
      Machine.OnReserveJobKeepsInv(s, job, load);
    }

    /** `check_all_reserved_jobs`: ask every running JobRunner, in order, to
        check its lease, then start the one-second timer. */
    method CheckAllReservedJobs()
      modifies this
      ensures Snapshot() == old(Snapshot()).(timers := old(timers) + 1)
      ensures log == old(log) + Machine.CheckAll(running) + [Machine.StartTimer(Machine.DEADLINE_PAUSE)]
    {
      var i := 0;
      while i < |running|
        invariant 0 <= i <= |running|
        invariant log == old(log) + Machine.CheckAll(running[..i])
        modifies this`log
      {
        assert running[..i + 1][..i] == running[..i];
        assert Machine.CheckAll(running[..i + 1]) ==
               Machine.CheckAll(running[..i]) + [Machine.CheckForTimeout(running[i])];
        log := log + [Machine.CheckForTimeout(running[i])];
        i := i + 1;
      }
      assert running[..i] == running;
      timers := timers + 1;
      log := log + [Machine.StartTimer(Machine.DEADLINE_PAUSE)];
    }

    /** The reserve's errback. */
    method OnReserveError(error: Machine.ReserveError)
      requires Valid() && started && reserved
      modifies this
      ensures Snapshot() == Machine.OnReserveError(old(Snapshot()), error).next
      ensures log == old(log) + Machine.OnReserveError(old(Snapshot()), error).effects
      ensures Valid()
    {
      ghost var s1 := Snapshot().(reserved := false);
      assert Machine.Inv(s1);
      reserved := false;
      match error {
        case DeadlineSoon =>
          CheckAllReservedJobs();
        case Disconnected =>
        case TimedOut =>
          ReserveIfNecessary();
          Machine.ReserveIfNecessaryKeeps(s1);
        case OtherError(_) =>
          ReserveIfNecessary();
          Machine.ReserveIfNecessaryKeeps(s1);
      }
    }

    /** A JobRunner's `:running` event. */
    method OnJobRunning(runner: RunnerId)
      requires Valid() && started
      modifies this
      ensures Snapshot() == Machine.OnJobRunning(old(Snapshot()), runner).next
      ensures log == old(log) + Machine.OnJobRunning(old(Snapshot()), runner).effects
      ensures Valid()
    {
      ghost var s := Snapshot();
      ReserveIfNecessary();
      Machine.ReserveIfNecessaryKeeps(s);
    }

    /** A JobRunner's `:done` event: `@running.delete(job_runner)`, then
        re-evaluate. */
    method OnJobDone(runner: RunnerId)
      requires Valid() && started
      modifies this
      ensures Snapshot() == Machine.OnJobDone(old(Snapshot()), runner).next
      ensures log == old(log) + Machine.OnJobDone(old(Snapshot()), runner).effects
      ensures Valid()
    {
      running := Machine.Without(running, runner);
      ghost var s1 := Snapshot();
      assert Machine.Inv(s1);
      ReserveIfNecessary();
      Machine.ReserveIfNecessaryKeeps(s1);
    }

    /** The one-second timer of `check_all_reserved_jobs` fires. */
    method OnDeadlineTimer()
      requires Valid() && started && timers > 0
      modifies this
      ensures Snapshot() == Machine.OnDeadlineTimer(old(Snapshot())).next
      ensures log == old(log) + Machine.OnDeadlineTimer(old(Snapshot())).effects
      ensures Valid()
    {
      timers := Machine.OneFired(timers);
      ghost var s1 := Snapshot();
      assert Machine.Inv(s1);
      ReserveIfNecessary();
      Machine.ReserveIfNecessaryKeeps(s1);
    }

    /** `stop`: turn off and set a fresh `@stop_df`. */
    method Stop()
      requires Valid()
      modifies this
      ensures Snapshot() == Machine.Stop(old(Snapshot())).next
      ensures log == old(log) + Machine.Stop(old(Snapshot())).effects
      ensures Valid()
    {
      on := false;
      stopRequested := true;
      stopDone := false;
    }

    /** `running_jobs`: the number of running jobs, between 0 and the
        concurrency. */
    method RunningJobs() returns (n: nat)
      requires Valid()
      ensures n == |running| && n <= concurrency
    {
      n := |running|;
    }
  }
}
