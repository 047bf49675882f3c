/** The base script: binding to a client context behind the authorization
    gate, the run loop with its init prologue, and the controls the host and
    the script itself use (exit request, destroy, pause). */
module Scripts {
  import opened Authorization
  import opened Scheduler

  datatype Option<T> = None | Some(value: T)

  /** The manifest annotation of a script class: its name and tier. */
  datatype ScriptManifest = ScriptManifest(name: string, tier: ScriptType)

  /** How create ends: the bindings are made, or it throws because the class
      has no manifest, or because the gate refuses the current user. */
  datatype CreateOutcome = Created | MissingManifest | CannotUse

  /** What the init hook does: returns true, returns false, or throws. */
  datatype InitResult = InitTrue | InitFalse | InitThrows

  /** How far the run loop got: init refused to start, the loop was left
      after the given number of ticks, or it is still going when the rounds
      run out. */
  datatype RunOutcome = RefusedToStart | Exited(ticks: nat) | StillRunning(ticks: nat)

  /** The part of the client context the scheduler touches: whether a
      random-event pool is installed. */
  class ScriptContext {
    var randomEvents: bool

    constructor (pool: bool)
      ensures randomEvents == pool
    {
      randomEvents := pool;
    }
  }

  class Script {
    var manifest: Option<ScriptManifest>
    var context: ScriptContext?
    /** Whether the API module references have been copied from the context. */
    var bound: bool
    var exitRequested: bool
    var paused: bool
    var nextExecutionTime: int

    /** Calls of the pulse hook, of the host's popScript, and of the
        random-event pool's check, so far. */
    ghost var pulseCalls: nat
    ghost var popCalls: nat
    ghost var eventChecks: nat

    /** The run-state fields as a value. */
    function State(): RunState
      reads this
    {
      RunState(exitRequested, paused, nextExecutionTime)
    }

    constructor ()
      ensures manifest == None && context == null && !bound
      ensures State() == Initial
      ensures pulseCalls == 0 && popCalls == 0 && eventChecks == 0
    {
      manifest := None;
      context := null;
      bound := false;
      exitRequested := false;
      paused := false;
      nextExecutionTime := -1;
      pulseCalls, popCalls, eventChecks := 0, 0, 0;
    }

    /** Binds the script to a context. The context is stored first; then a
        missing manifest or a refused user ends the call before any API
        module is bound. */
    method Create(ctx: ScriptContext, annotation: Option<ScriptManifest>, login: Login, groups: VipGroups)
      returns (outcome: CreateOutcome)
      modifies this
      ensures context == ctx
      ensures manifest == if annotation.Some? then annotation else old(manifest)
      ensures outcome == if annotation.None? then MissingManifest
                         else if Authorized(annotation.value.tier, login, groups) then Created
                         else CannotUse
      ensures bound == (old(bound) || outcome == Created)
      ensures State() == old(State())
      ensures pulseCalls == old(pulseCalls) && popCalls == old(popCalls) && eventChecks == old(eventChecks)
    {
      context := ctx;
      if annotation.Some? {
        manifest := annotation;
      } else {
        return MissingManifest;
      }
      var allowed := CanUse(manifest.value.tier, login, groups);
      if !allowed {
        return CannotUse;
      }
      bound := true;
      return Created;
    }

    /** One iteration of the run loop: poll the random-event pool, leave on
        an exit request, pulse when due, then compute the idle wait. */
    method Tick(now: int, pulseResult: int, waitNow: int) returns (result: TickResult)
      requires context != null
      modifies this
      ensures context == old(context) && manifest == old(manifest) && bound == old(bound)
      ensures Outcome(State(), result) == Step(old(State()), context.randomEvents, TickInput(now, pulseResult, waitNow))
      ensures pulseCalls == old(pulseCalls) + (if result.pulsed then 1 else 0)
      ensures popCalls == old(popCalls) + (if result.popped then 1 else 0)
      ensures eventChecks == old(eventChecks) + (if result.checked then 1 else 0)
    {
      var checked := false;
      if context.randomEvents {
        eventChecks := eventChecks + 1;
        checked := true;
      }
      if exitRequested {
        popCalls := popCalls + 1;
        return TickResult(checked, false, true, true, 0);
      }
      var pulsed, popped := false, false;
      if !paused {
        var time := now;
        if time >= nextExecutionTime {
          var delay := pulseResult;
          pulseCalls := pulseCalls + 1;
          pulsed := true;
          if delay < 0 {
            popCalls := popCalls + 1;
            popped := true;
          }
          nextExecutionTime := time + delay;
        }
      }
      var wait := FallbackWaitMillis;
      if nextExecutionTime > 0 {
        var sleep := nextExecutionTime - waitNow;
        wait := if sleep > 0 then sleep else 0;
      }
      return TickResult(checked, pulsed, popped, false, wait);
    }

    /** Runs the script: installs the random-event pool unless the script is
        itself a random event, calls init, and, unless init refused, drives
        the loop over the given rounds. An exception from init is ignored.
        A refusal is logged with the manifest's name before the pop; without
        a manifest that lookup fails inside the same guarded block, so the
        failure is ignored too and the loop starts with no pop. */
    method Run(isRandomEvent: bool, init: InitResult, rounds: seq<Round>) returns (outcome: RunOutcome)
      requires context != null
      modifies this, context
      ensures context == old(context) && manifest == old(manifest) && bound == old(bound)
      ensures context.randomEvents == (old(context.randomEvents) || !isRandomEvent)
      ensures init == InitFalse && manifest.Some? ==>
        outcome == RefusedToStart && State() == old(State()) &&
        pulseCalls == old(pulseCalls) && popCalls == old(popCalls) + 1 && eventChecks == old(eventChecks)
      ensures init != InitFalse || manifest.None? ==>
        var t := Ticks(old(State()), context.randomEvents, rounds);
        State() == t.final &&
        pulseCalls == old(pulseCalls) + Pulses(t.results) &&
        popCalls == old(popCalls) + Pops(t.results) &&
        eventChecks == old(eventChecks) + Checks(t.results) &&
        outcome == if Stopped(t.results) then Exited(|t.results|) else StillRunning(|t.results|)
    {
      if !isRandomEvent {
        context.randomEvents := true;
      }
      if init == InitFalse && manifest.Some? {
        popCalls := popCalls + 1;
        return RefusedToStart;
      }
      var ticks, stopped := Loop(rounds);
      return if stopped then Exited(ticks) else StillRunning(ticks);
    }

    /** The run loop itself, driven over the given rounds: each round lets
        another thread act on the flags, then ticks, until a tick leaves the
        loop or the rounds run out. */
    method Loop(rounds: seq<Round>) returns (ticks: nat, stopped: bool)
      requires context != null
      modifies this
      ensures context == old(context) && manifest == old(manifest) && bound == old(bound)
      ensures var t := Ticks(old(State()), context.randomEvents, rounds);
        State() == t.final && ticks == |t.results| && stopped == Stopped(t.results) &&
        pulseCalls == old(pulseCalls) + Pulses(t.results) &&
        popCalls == old(popCalls) + Pops(t.results) &&
        eventChecks == old(eventChecks) + Checks(t.results)
    {
      ghost var s0 := State();
      ghost var pool := context.randomEvents;
      ghost var p0, q0, c0 := pulseCalls, popCalls, eventChecks;
      ghost var results: seq<TickResult> := [];
      var i := 0;
      stopped := false;
      ProgressStart(s0, pool, rounds);
      while i < |rounds| && !stopped
        invariant 0 <= i <= |rounds|
        invariant context == old(context) && context.randomEvents == pool
        invariant manifest == old(manifest) && bound == old(bound)
        invariant stopped == Stopped(results)
        invariant Progress(s0, pool, rounds, i, results, State(), stopped)
        invariant |results| == i
        invariant pulseCalls == p0 + Pulses(results)
        invariant popCalls == q0 + Pops(results)
        invariant eventChecks == c0 + Checks(results)
        decreases |rounds| - i
      {
        ghost var before := State();
        var result := PlayRound(rounds[i]);
        ProgressStep(s0, pool, rounds, i, results, before, State(), result);
        AppendOne(results, result);
        results := results + [result];
        stopped := result.stop;
        i := i + 1;
      }
      ProgressEnd(s0, pool, rounds, i, results, State(), stopped);
      ticks := i;
    }

    /** One round of the driver: another thread acts on the flags, then the
        loop ticks. */
    method PlayRound(round: Round) returns (result: TickResult)
      requires context != null
      modifies this
      ensures context == old(context) && manifest == old(manifest) && bound == old(bound)
      ensures Outcome(State(), result) == Step(ApplyControl(old(State()), round.control), context.randomEvents, round.input)
      ensures pulseCalls == old(pulseCalls) + (if result.pulsed then 1 else 0)
      ensures popCalls == old(popCalls) + (if result.popped then 1 else 0)
      ensures eventChecks == old(eventChecks) + (if result.checked then 1 else 0)
    {
      Apply(round.control);
      result := Tick(round.input.now, round.input.pulseResult, round.input.waitNow);
    }

    /** Applies what another thread does between two ticks. */
    method Apply(c: Control)
      modifies this
      ensures State() == ApplyControl(old(State()), c)
      ensures context == old(context) && manifest == old(manifest) && bound == old(bound)
      ensures pulseCalls == old(pulseCalls) && popCalls == old(popCalls) && eventChecks == old(eventChecks)
    {
      match c
      case NoControl =>
      case RequestExit => RequestExit();
      case SetPaused(b) => SetPaused(b);
    }

    /** Stops the script: interrupts its thread, which only cuts the current
        idle wait short, and requests an exit. */
    method Destroy()
      modifies this
      ensures exitRequested
      ensures paused == old(paused) && nextExecutionTime == old(nextExecutionTime)
      ensures context == old(context) && manifest == old(manifest) && bound == old(bound)
      ensures pulseCalls == old(pulseCalls) && popCalls == old(popCalls) && eventChecks == old(eventChecks)
    {
      RequestExit();
    }

    method IsExitRequested() returns (r: bool)
      ensures r == exitRequested
    {
      return exitRequested;
    }

    /** Requests an exit, which the loop honours at its next exit check. */
    method RequestExit()
      modifies this
      ensures exitRequested
      ensures paused == old(paused) && nextExecutionTime == old(nextExecutionTime)
      ensures context == old(context) && manifest == old(manifest) && bound == old(bound)
      ensures pulseCalls == old(pulseCalls) && popCalls == old(popCalls) && eventChecks == old(eventChecks)
    {
      exitRequested := true;
    }

    method IsPaused() returns (r: bool)
      ensures r == paused
    {
      return paused;
    }

    /** Pauses or resumes pulse dispatch; nothing else changes, and an exit
        request is never withdrawn. */
    method SetPaused(b: bool)
      modifies this
      ensures paused == b
      ensures exitRequested == old(exitRequested) && nextExecutionTime == old(nextExecutionTime)
      ensures context == old(context) && manifest == old(manifest) && bound == old(bound)
      ensures pulseCalls == old(pulseCalls) && popCalls == old(popCalls) && eventChecks == old(eventChecks)
    {
      paused := b;
    }
  }

  /** The counters of a trace grow by the one result appended to it. */
  lemma AppendOne(rs: seq<TickResult>, r: TickResult)
    ensures Pulses(rs + [r]) == Pulses(rs) + (if r.pulsed then 1 else 0)
    ensures Pops(rs + [r]) == Pops(rs) + (if r.popped then 1 else 0)
    ensures Checks(rs + [r]) == Checks(rs) + (if r.checked then 1 else 0)
    ensures Stopped(rs + [r]) == r.stop
  {
    assert (rs + [r])[..|rs|] == rs;
  }

  /** A client of the script: pausing then asking gives back the flag, and
      destroying leaves the pause flag and the schedule as they were. */
  method PauseThenDestroy(s: Script, b: bool) returns (r: bool, exit: bool)
    modifies s
    ensures r == b && exit
    ensures s.paused == b && s.nextExecutionTime == old(s.nextExecutionTime)
  {
    s.SetPaused(b);
    r := s.IsPaused();
    s.Destroy();
    exit := s.IsExitRequested();
  }
}
