/** The JugglerInstance object of lib/juggler.rb, as far as it holds state:
    the registry of Runners that `stop` walks, and the configured grace
    timeout. */
module Facade {
  import opened RubyValues
  import Machine = RunnerMachine
  import opened Runners

  class JugglerInstance {
    /** `@runners`, in the order they were registered. */
    var runners: seq<Runner>
    /** `@shutdown_grace_timeout`, in seconds; None while unset. */
    var shutdownGraceTimeout: Option<real>
    /** The Runners whose `stop` was called, in call order. */
    ghost var stopCalls: seq<Runner>

    /** `JugglerInstance.new`: no Runners, no grace timeout configured. */
    constructor ()
      ensures runners == [] && shutdownGraceTimeout == None && stopCalls == []
    {
      runners := [];
      shutdownGraceTimeout := None;
      stopCalls := [];
    }

    /** `shutdown_grace_timeout=`. */
    method SetShutdownGraceTimeout(seconds: Option<real>)
      modifies this
      ensures shutdownGraceTimeout == seconds
      ensures runners == old(runners) && stopCalls == old(stopCalls)
    {
      shutdownGraceTimeout := seconds;
    }

    /** `shutdown_grace_timeout`: the configured value, or 2 seconds when
        none was set. */
    function ShutdownGraceTimeout(): (seconds: real)
      reads this
      ensures shutdownGraceTimeout.Some? ==> seconds == shutdownGraceTimeout.value
      ensures shutdownGraceTimeout.None? ==> seconds == 2.0
    {
      match shutdownGraceTimeout
      case Some(t) => t
      case None => 2.0
    }

    /** `add_runner`: register one more Runner, after the others. */
    method AddRunner(r: Runner)
      modifies this
      ensures runners == old(runners) + [r]
      ensures shutdownGraceTimeout == old(shutdownGraceTimeout) && stopCalls == old(stopCalls)
    {
      runners := runners + [r];
    }

    /** `juggle`: a new Runner for the tube, started and registered. */
    method Juggle(tube: string, concurrency: nat) returns (r: Runner)
      modifies this
      ensures fresh(r) && r.Valid() && r.log == [Machine.OpenConnection]
      ensures r.Snapshot() == Machine.Run(Machine.Initial(tube, concurrency)).next
      ensures runners == old(runners) + [r]
      ensures shutdownGraceTimeout == old(shutdownGraceTimeout) && stopCalls == old(stopCalls)
    {
      r := new Runner(tube, concurrency);
      r.Run();
      AddRunner(r);
    }

    /** `stop`: call `stop` on every registered Runner, in order. Each of them
        ends up stopped once, whether it is registered once or more. */
    method Stop()
      requires forall r :: r in runners ==> r.Valid()
      modifies this, set r | r in runners
      ensures runners == old(runners) && shutdownGraceTimeout == old(shutdownGraceTimeout)
      ensures stopCalls == old(stopCalls) + runners
      ensures forall r :: r in runners ==>
                && r.Valid() && r.log == old(r.log)
                && r.Snapshot() == Machine.Stop(old(r.Snapshot())).next
    {
      var i := 0;
      while i < |runners|
        invariant 0 <= i <= |runners|
        invariant runners == old(runners) && shutdownGraceTimeout == old(shutdownGraceTimeout)
        invariant stopCalls == old(stopCalls) + runners[..i]
        invariant forall r :: r in runners ==> r.Valid() && r.log == old(r.log)
        invariant forall r :: r in runners ==>
                    r.Snapshot() == if r in runners[..i] then Machine.Stop(old(r.Snapshot())).next else old(r.Snapshot())
      {
        var r := runners[i];
        r.Stop();
        stopCalls := stopCalls + [r];
        assert runners[..i + 1] == runners[..i] + [r];
        i := i + 1;
      }
      assert runners[..i] == runners;
    }
  }
}
