/** The script scheduler as a pure state machine: one tick of the run loop,
    the idle wait that ends it, and a sequence of ticks driven by the inputs
    the loop reads from outside (the clock, the pulse hook, other threads). */
module Scheduler {

  /** How long the loop sleeps while no pulse has been scheduled. */
  const FallbackWaitMillis: int := 200

  /** The run-state fields of a script. */
  datatype RunState = RunState(exitRequested: bool, paused: bool, nextExecutionTime: int)

  /** A freshly constructed script: no exit requested, not paused, and the
      next execution time at the sentinel -1. */
  const Initial: RunState := RunState(false, false, -1)

  /** What is done to the flags between two ticks: by another thread, or by
      the script's own init or pulse hook calling requestExit or setPaused. */
  datatype Control = NoControl | RequestExit | SetPaused(paused: bool)

  /** What one tick reads from outside: the clock when it considers a pulse,
      what the pulse hook returns if it is called, and the clock when it
      computes the wait. */
  datatype TickInput = TickInput(now: int, pulseResult: int, waitNow: int)

  /** What one tick does: whether it polled the random-event pool, called the
      pulse hook, asked the host to pop the script, left the loop, and how
      many milliseconds it then sleeps (0 when it left the loop). */
  datatype TickResult = TickResult(checked: bool, pulsed: bool, popped: bool, stop: bool, wait: int)

  datatype Outcome = Outcome(state: RunState, result: TickResult)

  /** One round of the driver: a control from another thread, then a tick. */
  datatype Round = Round(control: Control, input: TickInput)

  datatype Trace = Trace(final: RunState, results: seq<TickResult>)

  /** The effect of requestExit and setPaused on the run state. */
  function ApplyControl(s: RunState, c: Control): RunState
  {
    match c
    case NoControl => s
    case RequestExit => s.(exitRequested := true)
    case SetPaused(b) => s.(paused := b)
  }

  /** The idle wait at the end of a tick: once a pulse is scheduled at a
      positive time the loop sleeps until that instant and never a negative
      duration; before that it sleeps the fallback interval. */
  function IdleWait(next: int, now: int): (w: int)
    ensures w >= 0
    ensures next <= 0 ==> w == FallbackWaitMillis
    ensures next > 0 ==> now + w >= next && (w > 0 ==> now + w == next)
  {
    if next > 0 then
      var sleep := next - now;
      if sleep > 0 then sleep else 0
    else
      FallbackWaitMillis
  }

  /** One iteration of the run loop, from the random-event check to the wait.
      A negative delay pops the script but does not leave the loop. */
  function Step(s: RunState, pool: bool, i: TickInput): (o: Outcome)
    ensures o.result.checked == pool
    ensures o.state.exitRequested == s.exitRequested && o.state.paused == s.paused
    ensures o.result.stop <==> s.exitRequested
    ensures o.result.stop ==> o.result.popped && !o.result.pulsed && o.state == s
    ensures o.result.pulsed <==> !s.exitRequested && !s.paused && i.now >= s.nextExecutionTime
    ensures o.result.pulsed ==> o.state.nextExecutionTime == i.now + i.pulseResult
    ensures !o.result.pulsed ==> o.state.nextExecutionTime == s.nextExecutionTime
    ensures o.result.popped <==> o.result.stop || (o.result.pulsed && i.pulseResult < 0)
    ensures !o.result.stop ==> o.result.wait == IdleWait(o.state.nextExecutionTime, i.waitNow)
    ensures o.result.stop ==> o.result.wait == 0
    ensures o.result.wait >= 0
  {
    if s.exitRequested then
      Outcome(s, TickResult(pool, false, true, true, 0))
    else if !s.paused && i.now >= s.nextExecutionTime then
      var next := i.now + i.pulseResult;
      Outcome(s.(nextExecutionTime := next),
              TickResult(pool, true, i.pulseResult < 0, false, IdleWait(next, i.waitNow)))
    else
      Outcome(s, TickResult(pool, false, false, false, IdleWait(s.nextExecutionTime, i.waitNow)))
  }

  /** The loop run over a sequence of rounds: each round applies its control,
      then ticks; the trace ends at the tick that leaves the loop or when the
      rounds run out. */
  function Ticks(s: RunState, pool: bool, rounds: seq<Round>): (t: Trace)
    ensures |t.results| <= |rounds|
    ensures rounds != [] ==> t.results != []
    ensures |t.results| < |rounds| ==> t.results[|t.results| - 1].stop
    ensures s.exitRequested ==> t.final.exitRequested
    decreases |rounds|
  {
    if rounds == [] then Trace(s, [])
    else
      var o := Step(ApplyControl(s, rounds[0].control), pool, rounds[0].input);
      if o.result.stop then Trace(o.state, [o.result])
      else
        var rest := Ticks(o.state, pool, rounds[1..]);
        Trace(rest.final, [o.result] + rest.results)
  }

  /** Whether no tick but the last left the loop. */
  predicate StopsOnlyAtEnd(rs: seq<TickResult>)
  {
    forall k :: 0 <= k < |rs| - 1 ==> !rs[k].stop
  }

  /** Whether every tick polled the pool exactly when one is installed. */
  predicate AllPolled(rs: seq<TickResult>, pool: bool)
  {
    forall k :: 0 <= k < |rs| ==> rs[k].checked == pool
  }

  /** Only the last tick of a run can leave the loop, and every tick polled
      the random-event pool exactly when one is installed. */
  lemma {:induction false} TicksShape(s: RunState, pool: bool, rounds: seq<Round>)
    ensures StopsOnlyAtEnd(Ticks(s, pool, rounds).results)
    ensures AllPolled(Ticks(s, pool, rounds).results, pool)
    decreases |rounds|
  {
    if rounds != [] {
      var o := Step(ApplyControl(s, rounds[0].control), pool, rounds[0].input);
      if !o.result.stop {
        TicksShape(o.state, pool, rounds[1..]);
        var rs := Ticks(s, pool, rounds).results;
        var rest := Ticks(o.state, pool, rounds[1..]).results;
        assert rs == [o.result] + rest;
        forall k | 1 <= k < |rs| ensures rs[k] == rest[k - 1] {
        }
      }
    }
  }

  /** Where a driver of the loop stands after i rounds that produced the
      results done and left state s: done, followed by what the remaining
      rounds do from s, is the whole run; once stopped, done is the run. */
  ghost predicate Progress(s0: RunState, pool: bool, rounds: seq<Round>, i: nat,
                           done: seq<TickResult>, s: RunState, stopped: bool)
  {
    i <= |rounds| &&
    if stopped then Ticks(s0, pool, rounds) == Trace(s, done)
    else
      var rest := Ticks(s, pool, rounds[i..]);
      Ticks(s0, pool, rounds) == Trace(rest.final, done + rest.results)
  }

  lemma ProgressStart(s0: RunState, pool: bool, rounds: seq<Round>)
    ensures Progress(s0, pool, rounds, 0, [], s0, false)
  {
    assert rounds[0..] == rounds;
  }

  /** One more round extends the results by its tick. */
  lemma ProgressStep(s0: RunState, pool: bool, rounds: seq<Round>, i: nat,
                     done: seq<TickResult>, before: RunState, after: RunState, result: TickResult)
    requires i < |rounds| && Progress(s0, pool, rounds, i, done, before, false)
    requires Outcome(after, result) == Step(ApplyControl(before, rounds[i].control), pool, rounds[i].input)
    ensures Progress(s0, pool, rounds, i + 1, done + [result], after, result.stop)
  {
    assert rounds[i..][0] == rounds[i] && rounds[i..][1..] == rounds[i + 1..];
    if !result.stop {
      var rest := Ticks(after, pool, rounds[i + 1..]).results;
      assert done + ([result] + rest) == (done + [result]) + rest;
    }
  }

  /** A driver that stopped, or ran out of rounds, has produced the run. */
  lemma ProgressEnd(s0: RunState, pool: bool, rounds: seq<Round>, i: nat,
                    done: seq<TickResult>, s: RunState, stopped: bool)
    requires Progress(s0, pool, rounds, i, done, s, stopped)
    requires stopped || i == |rounds|
    ensures Ticks(s0, pool, rounds) == Trace(s, done)
  {
    if !stopped {
      assert rounds[i..] == [];
      assert done + [] == done;
    }
  }

  /** How many ticks of a trace called the pulse hook. */
  function Pulses(rs: seq<TickResult>): nat
  {
    if rs == [] then 0 else Pulses(rs[..|rs| - 1]) + (if rs[|rs| - 1].pulsed then 1 else 0)
  }

  /** How many ticks of a trace asked the host to pop the script. */
  function Pops(rs: seq<TickResult>): nat
  {
    if rs == [] then 0 else Pops(rs[..|rs| - 1]) + (if rs[|rs| - 1].popped then 1 else 0)
  }

  /** How many ticks of a trace polled the random-event pool. */
  function Checks(rs: seq<TickResult>): nat
  {
    if rs == [] then 0 else Checks(rs[..|rs| - 1]) + (if rs[|rs| - 1].checked then 1 else 0)
  }

  /** Whether a trace ended by leaving the loop. */
  predicate Stopped(rs: seq<TickResult>)
  {
    rs != [] && rs[|rs| - 1].stop
  }

  /** Once an exit is requested, the next tick pops the script once, calls no
      pulse and leaves the loop, whatever the rest of the rounds hold. */
  lemma ExitEndsNextTick(s: RunState, pool: bool, rounds: seq<Round>)
    requires rounds != []
    requires s.exitRequested || rounds[0].control == RequestExit
    ensures Ticks(s, pool, rounds).results == [TickResult(pool, false, true, true, 0)]
    ensures Ticks(s, pool, rounds).final == ApplyControl(s, rounds[0].control)
  {
  }

  /** The loop is left only at a tick whose exit check saw a request, and that
      request is still set when the loop is gone. */
  lemma {:induction false} StopOnlyOnExitRequest(s: RunState, pool: bool, rounds: seq<Round>)
    requires Stopped(Ticks(s, pool, rounds).results)
    ensures Ticks(s, pool, rounds).final.exitRequested
    ensures !Ticks(s, pool, rounds).results[|Ticks(s, pool, rounds).results| - 1].pulsed
    decreases |rounds|
  {
    var o := Step(ApplyControl(s, rounds[0].control), pool, rounds[0].input);
    if !o.result.stop {
      StopOnlyOnExitRequest(o.state, pool, rounds[1..]);
    }
  }

  /** An exit requested by another thread in round k is seen by the exit
      check of that round's tick: the run has ended by then, at tick k at the
      latest. */
  lemma {:induction false} ExitAtRoundEnds(s: RunState, pool: bool, rounds: seq<Round>, k: nat)
    requires k < |rounds| && rounds[k].control == RequestExit
    ensures Stopped(Ticks(s, pool, rounds).results)
    ensures |Ticks(s, pool, rounds).results| <= k + 1
    decreases k
  {
    var o := Step(ApplyControl(s, rounds[0].control), pool, rounds[0].input);
    if !o.result.stop {
      assert k != 0;
      assert rounds[1..][k - 1] == rounds[k];
      ExitAtRoundEnds(o.state, pool, rounds[1..], k - 1);
      var rest := Ticks(o.state, pool, rounds[1..]).results;
      assert Ticks(s, pool, rounds).results == [o.result] + rest;
    }
  }

  /** Nothing the scheduler does clears an exit request. */
  lemma {:induction false} ExitRequestSticks(s: RunState, pool: bool, rounds: seq<Round>)
    requires s.exitRequested || exists k :: 0 <= k < |rounds| && rounds[k].control == RequestExit
    ensures Ticks(s, pool, rounds).final.exitRequested
    decreases |rounds|
  {
    if rounds == [] {
      return;
    }
    var o := Step(ApplyControl(s, rounds[0].control), pool, rounds[0].input);
    if !o.result.stop {
      var k :| 0 <= k < |rounds| && rounds[k].control == RequestExit;
      assert k != 0;
      assert rounds[1..][k - 1].control == RequestExit;
      ExitRequestSticks(o.state, pool, rounds[1..]);
    }
  }

  /** Every tick polls the random-event pool when there is one, paused or
      not, exit pending or not. */
  lemma {:induction false} EveryTickChecks(s: RunState, rounds: seq<Round>)
    ensures Checks(Ticks(s, true, rounds).results) == |Ticks(s, true, rounds).results|
    ensures Checks(Ticks(s, false, rounds).results) == 0
  {
    TicksShape(s, true, rounds);
    TicksShape(s, false, rounds);
    CountPolled(Ticks(s, true, rounds).results, true);
    CountPolled(Ticks(s, false, rounds).results, false);
  }

  lemma {:induction false} CountPolled(rs: seq<TickResult>, pool: bool)
    requires AllPolled(rs, pool)
    ensures Checks(rs) == if pool then |rs| else 0
  {
    if rs != [] {
      CountPolled(rs[..|rs| - 1], pool);
    }
  }

  /** Whether no round of the sequence resumes the script. */
  predicate NeverResumed(rounds: seq<Round>)
  {
    forall k :: 0 <= k < |rounds| ==> rounds[k].control != SetPaused(false)
  }

  /** While the script stays paused no tick calls the pulse hook, and the
      next execution time does not move: no backlog of missed pulses. */
  lemma {:induction false} PausedNeverPulses(s: RunState, pool: bool, rounds: seq<Round>)
    requires s.paused && NeverResumed(rounds)
    ensures Pulses(Ticks(s, pool, rounds).results) == 0
    ensures Ticks(s, pool, rounds).final.nextExecutionTime == s.nextExecutionTime
    decreases |rounds|
  {
    if rounds != [] {
      var o := Step(ApplyControl(s, rounds[0].control), pool, rounds[0].input);
      if !o.result.stop {
        assert NeverResumed(rounds[1..]) by {
          forall k | 0 <= k < |rounds[1..]| ensures rounds[1..][k].control != SetPaused(false) {
            assert rounds[1..][k] == rounds[k + 1];
          }
        }
        PausedNeverPulses(o.state, pool, rounds[1..]);
        var rest := Ticks(o.state, pool, rounds[1..]).results;
        NoPulseInFront(o.result, rest);
      }
    }
  }

  lemma {:induction false} NoPulseInFront(r: TickResult, rs: seq<TickResult>)
    requires !r.pulsed
    ensures Pulses([r] + rs) == Pulses(rs)
    decreases |rs|
  {
    if rs != [] {
      assert ([r] + rs)[..|rs|] == [r] + rs[..|rs| - 1];
      NoPulseInFront(r, rs[..|rs| - 1]);
    }
  }

  /** Whether no tick strictly between positions lo and hi pulsed. */
  predicate NoPulseBetween(rs: seq<TickResult>, lo: int, hi: int)
  {
    forall m :: lo < m < hi && 0 <= m < |rs| ==> !rs[m].pulsed
  }

  /** A trace with more than one tick is its first tick, which did not leave
      the loop, followed by the trace of the remaining rounds. */
  lemma TicksTail(s: RunState, pool: bool, rounds: seq<Round>)
    requires |Ticks(s, pool, rounds).results| > 1
    ensures var o := Step(ApplyControl(s, rounds[0].control), pool, rounds[0].input);
            !o.result.stop &&
            Ticks(s, pool, rounds).results == [o.result] + Ticks(o.state, pool, rounds[1..]).results
  {
  }

  /** The first pulse of a trace happens no earlier than the next execution
      time the trace started with. */
  lemma {:induction false} FirstPulseNotEarly(s: RunState, pool: bool, rounds: seq<Round>, k: nat)
    requires var rs := Ticks(s, pool, rounds).results;
             k < |rs| && rs[k].pulsed && NoPulseBetween(rs, -1, k)
    ensures rounds[k].input.now >= s.nextExecutionTime
    decreases k
  {
    var rs := Ticks(s, pool, rounds).results;
    var o := Step(ApplyControl(s, rounds[0].control), pool, rounds[0].input);
    if k == 0 {
      assert rs[0] == o.result;
    } else {
      TicksTail(s, pool, rounds);
      var rest := Ticks(o.state, pool, rounds[1..]).results;
      assert NoPulseBetween(rest, -1, k - 1) by {
        forall m | -1 < m < k - 1 && 0 <= m < |rest| ensures !rest[m].pulsed {
          assert rest[m] == rs[m + 1];
        }
      }
      FirstPulseNotEarly(o.state, pool, rounds[1..], k - 1);
      assert rounds[1..][k - 1] == rounds[k];
    }
  }

  /** If the pulse hook returns delay d at time t, the next pulse happens at
      a time no earlier than t + d, paused ticks in between or not. */
  lemma {:induction false} PulseNotEarly(s: RunState, pool: bool, rounds: seq<Round>, j: nat, k: nat)
    requires var rs := Ticks(s, pool, rounds).results;
             j < k < |rs| && rs[j].pulsed && rs[k].pulsed && NoPulseBetween(rs, j, k)
    ensures rounds[k].input.now >= rounds[j].input.now + rounds[j].input.pulseResult
    decreases j
  {
    var rs := Ticks(s, pool, rounds).results;
    var o := Step(ApplyControl(s, rounds[0].control), pool, rounds[0].input);
    TicksTail(s, pool, rounds);
    var rest := Ticks(o.state, pool, rounds[1..]).results;
    assert rounds[1..][k - 1] == rounds[k];
    assert NoPulseBetween(rest, j - 1, k - 1) by {
      forall m | j - 1 < m < k - 1 && 0 <= m < |rest| ensures !rest[m].pulsed {
        assert rest[m] == rs[m + 1];
      }
    }
    if j == 0 {
      assert rs[0] == o.result;
      FirstPulseNotEarly(o.state, pool, rounds[1..], k - 1);
    } else {
      PulseNotEarly(o.state, pool, rounds[1..], j - 1, k - 1);
      assert rounds[1..][j - 1] == rounds[j];
    }
  }

  /** The first pulse fires on the first tick: the sentinel -1 is before any
      clock reading the loop can see. */
  lemma FirstTickPulses(pool: bool, i: TickInput)
    requires i.now >= 0
    ensures Step(Initial, pool, i).result.pulsed
  {
  }

  /** A negative delay pops the script but the loop goes on: with no exit
      request in between, the next due tick pulses and pops again. Three
      pulses returning 50, 50 and -1, then one more tick, give four pulses
      and two pops and the loop is still running. */
  lemma NegativeDelayKeepsLooping()
    ensures var t := Ticks(Initial, true,
                           [Round(NoControl, TickInput(1000, 50, 1000)),
                            Round(NoControl, TickInput(1050, 50, 1050)),
                            Round(NoControl, TickInput(1100, -1, 1100)),
                            Round(NoControl, TickInput(1100, -1, 1100))]);
            Pulses(t.results) == 4 && Pops(t.results) == 2 && !Stopped(t.results)
  {
    var r0 := Round(NoControl, TickInput(1000, 50, 1000));
    var r1 := Round(NoControl, TickInput(1050, 50, 1050));
    var r2 := Round(NoControl, TickInput(1100, -1, 1100));
    var s1, s2, s3 := RunState(false, false, 1050), RunState(false, false, 1100), RunState(false, false, 1099);
    var due := TickResult(true, true, false, false, 50);
    var popped := TickResult(true, true, true, false, 0);
    assert Ticks(s3, true, [r2]).results == [popped];
    assert Ticks(s2, true, [r2, r2]).results == [popped, popped];
    assert Ticks(s1, true, [r1, r2, r2]).results == [due, popped, popped];
    assert Ticks(Initial, true, [r0, r1, r2, r2]).results == [due, due, popped, popped];
    assert [due, due, popped, popped][..3] == [due, due, popped];
    assert [due, due, popped][..2] == [due, due];
    assert [due, due][..1] == [due] && [due][..0] == [];
    assert Pulses([due]) == 1 && Pops([due]) == 0;
    assert Pulses([due, due]) == 2 && Pops([due, due]) == 0;
    assert Pulses([due, due, popped]) == 3 && Pops([due, due, popped]) == 1;
  }

  /** The pulses 50, 50, -1 followed by an exit request before the next
      tick: three pulses and two pops, one from the negative delay and one
      from the exit check. */
  lemma NegativeDelayThenExit()
    ensures var t := Ticks(Initial, false,
                           [Round(NoControl, TickInput(1000, 50, 1000)),
                            Round(NoControl, TickInput(1050, 50, 1050)),
                            Round(NoControl, TickInput(1100, -1, 1100)),
                            Round(RequestExit, TickInput(1100, -1, 1100))]);
            Pulses(t.results) == 3 && Pops(t.results) == 2 && Stopped(t.results)
  {
    var r0 := Round(NoControl, TickInput(1000, 50, 1000));
    var r1 := Round(NoControl, TickInput(1050, 50, 1050));
    var r2 := Round(NoControl, TickInput(1100, -1, 1100));
    var r3 := Round(RequestExit, TickInput(1100, -1, 1100));
    var s1, s2, s3 := RunState(false, false, 1050), RunState(false, false, 1100), RunState(false, false, 1099);
    var due := TickResult(false, true, false, false, 50);
    var popped := TickResult(false, true, true, false, 0);
    var exited := TickResult(false, false, true, true, 0);
    assert Ticks(s3, false, [r3]).results == [exited];
    assert Ticks(s2, false, [r2, r3]).results == [popped, exited];
    assert Ticks(s1, false, [r1, r2, r3]).results == [due, popped, exited];
    assert Ticks(Initial, false, [r0, r1, r2, r3]).results == [due, due, popped, exited];
    assert [due, due, popped, exited][..3] == [due, due, popped];
    assert [due, due, popped][..2] == [due, due];
    assert [due, due][..1] == [due];
    assert Pulses([due]) == 1 && Pops([due]) == 0 by {
      assert [due][..|[due]| - 1] == [];
    }
    assert Pulses([due, due]) == 2 && Pops([due, due]) == 0;
    assert Pulses([due, due, popped]) == 3 && Pops([due, due, popped]) == 1;
  }

  // The idle wait as written reads the clock twice: once to decide whether
  // to sleep and once more for the argument it passes to the sleep call.

  /** The sleep call the loop makes, if any. */
  datatype SleepCall = NoSleep | Sleep(millis: int)

  /** The idle wait as written, with the two clock readings it makes: the
      decision to sleep is the corrected wait taken at the first reading, but
      the duration passed on is that wait shortened by the time that went by
      before the second reading. */
  function SleepCallAsWritten(next: int, checkNow: int, sleepNow: int): (c: SleepCall)
    ensures next <= 0 ==> c == Sleep(FallbackWaitMillis)
    ensures next > 0 ==> (c.Sleep? <==> IdleWait(next, checkNow) > 0)
    ensures next > 0 && c.Sleep? ==> c.millis == IdleWait(next, checkNow) - (sleepNow - checkNow)
  {
    if next > 0 then
      var sleep := next - checkNow;
      if sleep > 0 then Sleep(next - sleepNow) else NoSleep
    else
      Sleep(FallbackWaitMillis)
  }

  /** The sleep call rejects a negative duration with an exception that the
      loop does not catch, which ends the scheduler thread. */
  predicate SleepRejects(c: SleepCall)
  {
    c.Sleep? && c.millis < 0
  }

  function SleptMillis(c: SleepCall): nat
    requires !SleepRejects(c)
  {
    if c.Sleep? then c.millis else 0
  }

  /** A clock that moves on by two milliseconds between the two readings
      makes the wait pass a negative duration to the sleep call. */
  lemma SleepArgumentCanBeNegative()
    ensures SleepRejects(SleepCallAsWritten(1000, 999, 1001))
  {
  }

  /** With a single clock reading, the wait as written and IdleWait agree,
      and the sleep call never sees a negative duration. */
  lemma IdleWaitMatchesSingleReading(next: int, now: int)
    ensures !SleepRejects(SleepCallAsWritten(next, now, now))
    ensures SleptMillis(SleepCallAsWritten(next, now, now)) == IdleWait(next, now)
  {
  }
}
